/**
  The open order of pedidos.py: the module-level list `listaPedido` of `(id, title, price)`
  items. Products are added to it by id, removed from it by position, and closing the order
  writes it to Pedidos.txt and empties it. The product list fakestoreapi.com answers with is a
  parameter, and so is what the user types at each prompt.
 */
module Orders {
  import opened Wrappers
  import opened Text
  import opened Seqs
  import opened ProductFiles

  /** How an operation on the order ends, each with the message pedidos.py shows for it. */
  datatype Status =
    | Added                     // "Produto adicionado ao pedido."
    | Removed(item: OrderItem)  // "Item removido: <title>"
    | Closed                    // "Pedido finalizado."
    | EmptyOrder                // "Nenhum item no pedido."
    | NotFound                  // "Produto não encontrado."
    | Cancelled                 // "Remoção cancelada."
    | InvalidNumber             // "Número inválido."
    | InvalidInput              // "Entrada inválida."

  /** The tuple `(produto["id"], produto["title"], produto["price"])`. */
  function ItemOf(p: Product): OrderItem
  {
    OrderItem(p.id, p.title, p.price)
  }

  /**
    Adding the product typed by id from `catalog` (the API products followed by the local
    ones): the first product with that id is appended as one item; otherwise nothing changes.
   */
  function AddStep(items: seq<OrderItem>, catalog: seq<Product>, input: string): (r: (seq<OrderItem>, Status))
    ensures r.1 == InvalidInput <==> ParseInt(input).None?
    ensures r.1 in {Added, NotFound, InvalidInput}
    ensures r.1 == NotFound <==>
              ParseInt(input).Some? && forall k :: 0 <= k < |catalog| ==> catalog[k].id != ParseInt(input).value
    ensures r.1 != Added ==> r.0 == items
    ensures r.1 == Added ==>
              && |r.0| == |items| + 1 && r.0[..|items|] == items
              && exists k :: 0 <= k < |catalog| && catalog[k].id == ParseInt(input).value
                             && (forall j :: 0 <= j < k ==> catalog[j].id != ParseInt(input).value)
                             && r.0[|items|] == ItemOf(catalog[k])
  {
    match ParseInt(input)
    case None => (items, InvalidInput)
    case Some(id) =>
      match IndexOfId(catalog, id)
      case None => (items, NotFound)
      case Some(k) =>
        assert (items + [ItemOf(catalog[k])])[..|items|] == items;
        (items + [ItemOf(catalog[k])], Added)
  }

  /** A product of the API list shadows a local product with the same id. */
  lemma ApiBeforeLocal(api: seq<Product>, local: seq<Product>, id: int)
    requires IndexOfId(api, id).Some?
    ensures IndexOfId(api + local, id) == IndexOfId(api, id)
  {
    var k := IndexOfId(api, id).value;
    IndexOfIdAt(api + local, id, k);
  }

  /** An id the API list lacks is looked up among the local products. */
  lemma LocalAfterApi(api: seq<Product>, local: seq<Product>, id: int)
    requires IndexOfId(api, id).None?
    ensures IndexOfId(api + local, id) ==
              match IndexOfId(local, id)
              case None => None
              case Some(k) => Some(|api| + k)
  {
    match IndexOfId(local, id)
    case None =>
      assert forall j :: 0 <= j < |api + local| ==> (api + local)[j].id != id by {
        forall j | 0 <= j < |api + local| ensures (api + local)[j].id != id {
          if j >= |api| {
            assert (api + local)[j] == local[j - |api|];
          }
        }
      }
    case Some(k) =>
      IndexOfIdAt(api + local, id, |api| + k);
  }

  /**
    Removing the item at the typed 1-based position: 0 cancels, a position past the end is
    refused, and an empty order is refused before anything is typed.
   */
  function RemoveStep(items: seq<OrderItem>, input: string): (r: (seq<OrderItem>, Status))
    ensures r.1 == EmptyOrder <==> items == []
    ensures r.1 == InvalidInput <==> items != [] && ParseInt(input).None?
    ensures r.1 == Cancelled <==> items != [] && ParseInt(input) == Some(0)
    ensures r.1.Removed? <==> items != [] && ParseInt(input).Some? && 1 <= ParseInt(input).value <= |items|
    ensures r.1 == InvalidNumber <==>
              items != [] && ParseInt(input).Some? && (ParseInt(input).value < 0 || ParseInt(input).value > |items|)
    ensures !r.1.Removed? ==> r.0 == items
    ensures r.1.Removed? ==>
              var k := ParseInt(input).value;
              && r.1.item == items[k - 1]
              && |r.0| == |items| - 1
              && (forall j :: 0 <= j < k - 1 ==> r.0[j] == items[j])
              && (forall j :: k - 1 <= j < |r.0| ==> r.0[j] == items[j + 1])
  {
    if items == [] then (items, EmptyOrder)
    else
      match ParseInt(input)
      case None => (items, InvalidInput)
      case Some(k) =>
        if k == 0 then (items, Cancelled)
        else if 1 <= k <= |items| then (RemoveAt(items, k - 1), Removed(items[k - 1]))
        else (items, InvalidNumber)
  }

  /** Removing the last position right after an add takes the added item back out. */
  lemma RemoveUndoesAdd(items: seq<OrderItem>, catalog: seq<Product>, input: string)
    requires AddStep(items, catalog, input).1 == Added
    ensures var added := AddStep(items, catalog, input).0;
            RemoveStep(added, IntToStr(|added|)) == (items, Removed(added[|items|]))
  {
    var added := AddStep(items, catalog, input).0;
    ParseIntOfIntToStr(|added|);
    assert RemoveAt(added, |items|) == items;
  }

  /** The order being built: `listaPedido`. */
  class OrderBook {
    var items: seq<OrderItem>

    /** `listaPedido = []` at import. */
    constructor ()
      ensures items == []
    {
      items := [];
    }

    /**
      `adicionar_pedido()` with the API products and the typed id. Reading the local products
      may raise, as `lerProdutosLocais` does, and then the order is left as it was.
     */
    method Add(disk: Disk, api: seq<Product>, input: string) returns (r: Result<Status, ReadError>)
      modifies this
      ensures ReadProducts(disk.files).Err? ==> r == Err(ReadProducts(disk.files).error) && items == old(items)
      ensures ReadProducts(disk.files).Ok? ==>
                var step := AddStep(old(items), api + ReadProducts(disk.files).value, input);
                items == step.0 && r == Ok(step.1)
    {
      var local := disk.ReadLocalProducts();
      if local.Err? {
        return Err(local.error);
      }
      var catalog := api + local.value;
      var id := ParseInt(input);
      if id.None? {
        return Ok(InvalidInput);
      }
      var found := IndexOfId(catalog, id.value);
      if found.None? {
        return Ok(NotFound);
      }
      items := items + [ItemOf(catalog[found.value])];
      r := Ok(Added);
    }

    /** `remover_item_pedido()` with the typed position: `listaPedido.pop(k - 1)`. */
    method RemoveItem(input: string) returns (r: Status)
      modifies this
      ensures (items, r) == RemoveStep(old(items), input)
    {
      if items == [] {
        return EmptyOrder;
      }
      var k := ParseInt(input);
      if k.None? {
        return InvalidInput;
      }
      if k.value == 0 {
        r := Cancelled;
      } else if 1 <= k.value <= |items| {
        var removed := items[k.value - 1];
        items := RemoveAt(items, k.value - 1);
        r := Removed(removed);
      } else {
        r := InvalidNumber;
      }
    }

    /**
      `fechar_pedido()`: an empty order writes nothing; otherwise the order is appended to
      Pedidos.txt as it stands, stamped with `stamp` (`str(datetime.now())`), and then emptied.
     */
    method Close(disk: Disk, stamp: string, dumps: seq<OrderDict> -> string) returns (r: Status)
      modifies this, disk
      ensures old(items) == [] ==> r == EmptyOrder
      ensures old(items) != [] ==> r == Closed
      ensures items == []
      ensures r == EmptyOrder ==> disk.files == old(disk.files)
      ensures r == Closed ==>
                disk.files == old(disk.files)[OrdersPath :=
                  Contents(old(disk.files), OrdersPath) + stamp + ";" + dumps(ToOrderDicts(old(items))) + "\n"]
    {
      if items == [] {
        return EmptyOrder;
      }
      disk.AppendOrder(items, stamp, dumps);
      items := [];
      r := Closed;
    }
  }
}
