/**
  Local product maintenance of cadastros.py: the next free id, registering a product, and
  deleting or editing one of produtos_local.txt. What the user types at each prompt is passed
  in as text. `float()` of a typed price stays abstract: `toPrice(s)` is the text that
  `f"{float(s)}"` writes, or None where `float(s)` raises `ValueError`.
 */
module Registry {
  import opened Wrappers
  import opened Text
  import opened ProductFiles

  /** The id `gerar_id_produto` gives when there are no local products yet. */
  const FirstLocalId := 21

  /** How an operation ends, each with the message cadastros.py shows for it. */
  datatype Status =
    | Done           // "... cadastrado / excluído / atualizado com sucesso."
    | InvalidOption  // "Opção inválida."
    | NoProducts     // "Nenhum produto local para excluir / editar."
    | InvalidInput   // "Entrada inválida.": a `ValueError` caught
    | NotFound       // "Produto não encontrado."
    | Cancelled      // "Exclusão cancelada."

  /** `max(p['id'] for p in products)`. */
  function MaxId(products: seq<Product>): (r: int)
    requires products != []
    ensures forall i :: 0 <= i < |products| ==> products[i].id <= r
    ensures exists i :: 0 <= i < |products| && products[i].id == r
  {
    if |products| == 1 then products[0].id
    else
      var rest := MaxId(products[1..]);
      if products[0].id >= rest then products[0].id else rest
  }

  /** The id `gerar_id_produto` gives after reading `products`. */
  function NextId(products: seq<Product>): int
  {
    if products == [] then FirstLocalId else MaxId(products) + 1
  }

  /** No two products share an id. */
  predicate UniqueIds(products: seq<Product>)
  {
    forall i, j :: 0 <= i < j < |products| ==> products[i].id != products[j].id
  }

  /** The next id is 21 on an empty file, and otherwise one more than the largest id, so it is new. */
  lemma NextIdIsFresh(products: seq<Product>)
    ensures products == [] ==> NextId(products) == FirstLocalId
    ensures forall i :: 0 <= i < |products| ==> products[i].id < NextId(products)
    ensures products != [] ==> exists i :: 0 <= i < |products| && NextId(products) == products[i].id + 1
  {
    if products != [] {
      var i :| 0 <= i < |products| && products[i].id == MaxId(products);
      assert NextId(products) == products[i].id + 1;
    }
  }

  /** A product given the next id keeps the ids unique. */
  lemma NextIdKeepsIdsUnique(products: seq<Product>, title: string, price: string, description: string)
    requires UniqueIds(products)
    ensures UniqueIds(products + [Product(NextId(products), title, price, description)])
  {
    NextIdIsFresh(products);
    var all := products + [Product(NextId(products), title, price, description)];
    forall i, j | 0 <= i < j < |all| ensures all[i].id != all[j].id {
      if j == |products| {
        assert all[i] == products[i];
      } else {
        assert all[i] == products[i] && all[j] == products[j];
      }
    }
  }

  /** `gerar_id_produto()`: reading the file may raise, as `lerProdutosLocais` does. */
  method GenerateProductId(disk: Disk) returns (r: Result<int, ReadError>)
    ensures ReadProducts(disk.files).Err? ==> r == Err(ReadProducts(disk.files).error)
    ensures ReadProducts(disk.files).Ok? ==> r == Ok(NextId(ReadProducts(disk.files).value))
  {
    var read := disk.ReadLocalProducts();
    match read {
      case Err(e) => r := Err(e);
      case Ok(products) => r := Ok(NextId(products));
    }
  }

  /** What was typed, or the current value on an empty answer: `input(...) or produto[...]`. */
  function OrKeep(typed: string, current: string): string
  {
    if typed == [] then current else typed
  }

  /**
    `cadastrar_item` with the typed kind, name, price and description: only kinds "1" and "2"
    register; a price `float()` rejects raises before anything is written.
   */
  function RegisterStep(files: map<string, string>, kind: string, name: string, priceInput: string,
                        description: string, toPrice: string -> Option<string>)
    : (res: (map<string, string>, Result<Status, ReadError>))
    ensures res.1 == Ok(InvalidOption) <==> kind != "1" && kind != "2"
    ensures res.1.Err? ==> res.1.error == InvalidLiteral
    ensures res.1 == Err(InvalidLiteral) <==>
              (kind == "1" || kind == "2") && (toPrice(priceInput).None? || ReadProducts(files).Err?)
    ensures res.1.Ok? ==> res.1.value in {InvalidOption, Done}
    ensures res.1 == Ok(Done) <==>
              (kind == "1" || kind == "2") && toPrice(priceInput).Some? && ReadProducts(files).Ok?
    ensures res.1 != Ok(Done) ==> res.0 == files
    ensures res.1 == Ok(Done) ==>
              var p := Product(NextId(ReadProducts(files).value), name, toPrice(priceInput).value, description);
              res.0 == files[ProductsPath := Contents(files, ProductsPath) + FormatRecord(p) + "\n"]
  {
    if kind != "1" && kind != "2" then (files, Ok(InvalidOption))
    else
      match toPrice(priceInput)
      case None => (files, Err(InvalidLiteral))
      case Some(price) =>
        match ReadProducts(files)
        case Err(e) => assert e == InvalidLiteral; (files, Err(e))
        case Ok(products) =>
          var p := Product(NextId(products), name, price, description);
          (files[ProductsPath := Contents(files, ProductsPath) + FormatRecord(p) + "\n"], Ok(Done))
  }

  /** `cadastrar_item()`. */
  method RegisterItem(disk: Disk, kind: string, name: string, priceInput: string, description: string,
                      toPrice: string -> Option<string>)
    returns (r: Result<Status, ReadError>)
    modifies disk
    ensures (disk.files, r) == RegisterStep(old(disk.files), kind, name, priceInput, description, toPrice)
  {
    if kind != "1" && kind != "2" {
      return Ok(InvalidOption);
    }
    var price := toPrice(priceInput);
    if price.None? {
      return Err(InvalidLiteral);
    }
    var id := GenerateProductId(disk);
    match id {
      case Err(e) =>
        r := Err(e);
      case Ok(n) =>
        disk.AppendProduct(Product(n, name, price.value, description));
        r := Ok(Done);
    }
  }

  /**
    A registered product is read back after the products already there, under an id none of
    them has, less trailing blanks of its description.
   */
  lemma ReadAfterRegister(files: map<string, string>, kind: string, name: string, priceInput: string,
                          description: string, toPrice: string -> Option<string>)
    requires RegisterStep(files, kind, name, priceInput, description, toPrice).1 == Ok(Done)
    requires EndsLine(Contents(files, ProductsPath))
    requires IsPlainField(name) && IsPlainField(toPrice(priceInput).value) && IsPlainField(description)
    ensures var products := ReadProducts(files).value;
            var id := NextId(products);
            && ReadProducts(RegisterStep(files, kind, name, priceInput, description, toPrice).0)
               == Ok(products + [Product(id, name, toPrice(priceInput).value, RStrip(description))])
            && forall i :: 0 <= i < |products| ==> products[i].id != id
  {
    var products := ReadProducts(files).value;
    ReadAfterAppend(files, Product(NextId(products), name, toPrice(priceInput).value, description));
    NextIdIsFresh(products);
  }

  /** The `with open("produtos_local.txt", "w")` loop of `excluir_item` and `editar_item`. */
  method RewriteProducts(disk: Disk, products: seq<Product>)
    modifies disk
    ensures disk.files == old(disk.files)[ProductsPath := Render(products)]
  {
    disk.files := disk.files[ProductsPath := ""];
    for i := 0 to |products|
      invariant disk.files == old(disk.files)[ProductsPath := Render(products[..i])]
    {
      assert products[..i + 1][..i] == products[..i];
      assert Render(products[..i + 1]) == Render(products[..i]) + FormatRecord(products[i]) + "\n";
      disk.AppendProduct(products[i]);
    }
    assert products[..|products|] == products;
  }

  /** A file rewritten with products read from it reads back as exactly those products. */
  lemma ReadAfterRewrite(files: map<string, string>, products: seq<Product>)
    requires forall i :: 0 <= i < |products| ==> Canonical(products[i])
    ensures ReadProducts(files[ProductsPath := Render(products)]) == Ok(products)
  {
    ReadRendered(products);
  }

  /**
    `strip().upper() == "S"`: besides 'S' and 's', the long s 'ſ' (U+017F) is the one
    character whose upper case is "S".
   */
  predicate ConfirmsYes(answer: string)
  {
    var t := Strip(answer);
    t == "S" || t == "s" || t == "\U{17F}"
  }

  /**
    `excluir_item` with the typed id and confirmation: every product with that id goes, and the
    rest are written back in order; nothing is written on any other outcome.
   */
  function DeleteStep(files: map<string, string>, idInput: string, confirmation: string)
    : (res: (map<string, string>, Result<Status, ReadError>))
    ensures res.1.Err? <==> ReadProducts(files).Err?
    ensures res.1 == Ok(NoProducts) <==> ReadProducts(files) == Ok([])
    ensures res.1 == Ok(InvalidInput) <==>
              ReadProducts(files).Ok? && ReadProducts(files).value != [] && ParseInt(idInput).None?
    ensures res.1 == Ok(NotFound) <==>
              && ReadProducts(files).Ok? && ReadProducts(files).value != [] && ParseInt(idInput).Some?
              && IndexOfId(ReadProducts(files).value, ParseInt(idInput).value).None?
    ensures res.1 == Ok(Cancelled) <==>
              && ReadProducts(files).Ok? && ParseInt(idInput).Some?
              && IndexOfId(ReadProducts(files).value, ParseInt(idInput).value).Some?
              && !ConfirmsYes(confirmation)
    ensures res.1 == Ok(Done) <==>
              && ReadProducts(files).Ok? && ParseInt(idInput).Some?
              && IndexOfId(ReadProducts(files).value, ParseInt(idInput).value).Some?
              && ConfirmsYes(confirmation)
    ensures res.1.Ok? ==> res.1.value in {NoProducts, InvalidInput, NotFound, Cancelled, Done}
    ensures res.1 != Ok(Done) ==> res.0 == files
    ensures res.1 == Ok(Done) ==>
              res.0 == files[ProductsPath := Render(WithoutId(ReadProducts(files).value, ParseInt(idInput).value))]
  {
    match ReadProducts(files)
    case Err(e) => (files, Err(e))
    case Ok(products) =>
      if products == [] then (files, Ok(NoProducts))
      else
        match ParseInt(idInput)
        case None => (files, Ok(InvalidInput))
        case Some(id) =>
          if IndexOfId(products, id).None? then (files, Ok(NotFound))
          else if !ConfirmsYes(confirmation) then (files, Ok(Cancelled))
          else (files[ProductsPath := Render(WithoutId(products, id))], Ok(Done))
  }

  /** `excluir_item()`. */
  method DeleteItem(disk: Disk, idInput: string, confirmation: string) returns (r: Result<Status, ReadError>)
    modifies disk
    ensures (disk.files, r) == DeleteStep(old(disk.files), idInput, confirmation)
  {
    var read := disk.ReadLocalProducts();
    if read.Err? {
      return Err(read.error);
    }
    var products := read.value;
    if products == [] {
      return Ok(NoProducts);
    }
    var id := ParseInt(idInput);
    if id.None? {
      return Ok(InvalidInput);
    }
    if IndexOfId(products, id.value).None? {
      return Ok(NotFound);
    }
    if !ConfirmsYes(confirmation) {
      return Ok(Cancelled);
    }
    RewriteProducts(disk, WithoutId(products, id.value));
    r := Ok(Done);
  }

  /**
    After a deletion the file reads as the products it held minus those with the deleted id,
    in their order: none has that id, and every other product is still there.
   */
  lemma ReadAfterDelete(files: map<string, string>, idInput: string, confirmation: string)
    requires DeleteStep(files, idInput, confirmation).1 == Ok(Done)
    ensures var products := ReadProducts(files).value;
            var id := ParseInt(idInput).value;
            var after := ReadProducts(DeleteStep(files, idInput, confirmation).0);
            && after == Ok(WithoutId(products, id))
            && |after.value| < |products|
            && forall p :: p in after.value <==> p in products && p.id != id
  {
    var products := ReadProducts(files).value;
    var id := ParseInt(idInput).value;
    ReadProductsCanonical(files);
    ReadAfterRewrite(files, WithoutId(products, id));
    WithoutIdDrops(products, id);
  }

  /** Filtering out an id some product has leaves fewer products. */
  lemma WithoutIdDrops(products: seq<Product>, id: int)
    requires IndexOfId(products, id).Some?
    ensures |WithoutId(products, id)| < |products|
  {
    var i := IndexOfId(products, id).value;
    assert products == products[..i] + [products[i]] + products[i + 1..];
    WithoutIdConcat(products[..i] + [products[i]], products[i + 1..], id);
    WithoutIdConcat(products[..i], [products[i]], id);
    WithoutIdOne(products[i], id);
    WithoutIdShrinks(products[..i], id);
    WithoutIdShrinks(products[i + 1..], id);
  }

  /** Filtering never adds products. */
  lemma {:induction false} WithoutIdShrinks(products: seq<Product>, id: int)
    ensures |WithoutId(products, id)| <= |products|
  {
    if products != [] {
      assert products == [products[0]] + products[1..];
      WithoutIdConcat([products[0]], products[1..], id);
      WithoutIdOne(products[0], id);
      WithoutIdShrinks(products[1..], id);
    }
  }

  /** The price `editar_item` stores: the old one on a blank answer, else `float()` of it. */
  function NewPrice(priceInput: string, current: string, toPrice: string -> Option<string>): (r: Option<string>)
    ensures Strip(priceInput) == [] ==> r == Some(current)
    ensures Strip(priceInput) != [] ==> r == toPrice(priceInput)
  {
    if Strip(priceInput) == [] then Some(current) else toPrice(priceInput)
  }

  /** The product with the typed name, price and description, each kept when left empty. */
  function Edited(p: Product, nameInput: string, price: string, descriptionInput: string): Product
  {
    Product(p.id, OrKeep(nameInput, p.title), price, OrKeep(descriptionInput, p.description))
  }

  /**
    `editar_item` with the typed id, name, price and description: only the first product with
    the id changes, and all of them are written back in order.
   */
  function EditStep(files: map<string, string>, idInput: string, nameInput: string, priceInput: string,
                    descriptionInput: string, toPrice: string -> Option<string>)
    : (res: (map<string, string>, Result<Status, ReadError>))
    ensures res.1.Err? <==> ReadProducts(files).Err?
    ensures res.1 == Ok(NoProducts) <==> ReadProducts(files) == Ok([])
    ensures res.1 == Ok(NotFound) <==>
              && ReadProducts(files).Ok? && ReadProducts(files).value != [] && ParseInt(idInput).Some?
              && IndexOfId(ReadProducts(files).value, ParseInt(idInput).value).None?
    ensures res.1 == Ok(InvalidInput) <==>
              && ReadProducts(files).Ok? && ReadProducts(files).value != []
              && (|| ParseInt(idInput).None?
                  || var products := ReadProducts(files).value;
                     var i := IndexOfId(products, ParseInt(idInput).value);
                     i.Some? && NewPrice(priceInput, products[i.value].price, toPrice).None?)
    ensures res.1 == Ok(Done) <==>
              && ReadProducts(files).Ok? && ParseInt(idInput).Some?
              && var products := ReadProducts(files).value;
                 var i := IndexOfId(products, ParseInt(idInput).value);
                 i.Some? && NewPrice(priceInput, products[i.value].price, toPrice).Some?
    ensures res.1.Ok? ==> res.1.value in {NoProducts, InvalidInput, NotFound, Done}
    ensures res.1 != Ok(Done) ==> res.0 == files
    ensures res.1 == Ok(Done) ==>
              var products := ReadProducts(files).value;
              var i := IndexOfId(products, ParseInt(idInput).value).value;
              var price := NewPrice(priceInput, products[i].price, toPrice).value;
              res.0 == files[ProductsPath := Render(products[i := Edited(products[i], nameInput, price, descriptionInput)])]
  {
    match ReadProducts(files)
    case Err(e) => (files, Err(e))
    case Ok(products) =>
      if products == [] then (files, Ok(NoProducts))
      else
        match ParseInt(idInput)
        case None => (files, Ok(InvalidInput))
        case Some(id) =>
          match IndexOfId(products, id)
          case None => (files, Ok(NotFound))
          case Some(i) =>
            match NewPrice(priceInput, products[i].price, toPrice)
            case None => (files, Ok(InvalidInput))
            case Some(price) =>
              var edited := products[i := Edited(products[i], nameInput, price, descriptionInput)];
              (files[ProductsPath := Render(edited)], Ok(Done))
  }

  /** `editar_item()`: the matched product is updated in the list read, which is then rewritten. */
  method EditItem(disk: Disk, idInput: string, nameInput: string, priceInput: string,
                  descriptionInput: string, toPrice: string -> Option<string>)
    returns (r: Result<Status, ReadError>)
    modifies disk
    ensures (disk.files, r) == EditStep(old(disk.files), idInput, nameInput, priceInput, descriptionInput, toPrice)
  {
    var read := disk.ReadLocalProducts();
    if read.Err? {
      return Err(read.error);
    }
    var products := read.value;
    if products == [] {
      return Ok(NoProducts);
    }
    var id := ParseInt(idInput);
    if id.None? {
      return Ok(InvalidInput);
    }
    var found := IndexOfId(products, id.value);
    if found.None? {
      return Ok(NotFound);
    }
    var i := found.value;
    var price := NewPrice(priceInput, products[i].price, toPrice);
    if price.None? {
      return Ok(InvalidInput);
    }
    products := products[i := Edited(products[i], nameInput, price.value, descriptionInput)];
    RewriteProducts(disk, products);
    r := Ok(Done);
  }

  /**
    After an edit whose typed fields can be stored, the file reads as before with only the
    first product of that id replaced by its edited version.
   */
  lemma ReadAfterEdit(files: map<string, string>, idInput: string, nameInput: string, priceInput: string,
                      descriptionInput: string, toPrice: string -> Option<string>)
    requires EditStep(files, idInput, nameInput, priceInput, descriptionInput, toPrice).1 == Ok(Done)
    requires IsPlainField(nameInput) && IsPlainField(descriptionInput)
    requires RStrip(descriptionInput) == descriptionInput
    requires Strip(priceInput) != [] ==> IsPlainField(toPrice(priceInput).value)
    ensures var products := ReadProducts(files).value;
            var i := IndexOfId(products, ParseInt(idInput).value).value;
            var price := NewPrice(priceInput, products[i].price, toPrice).value;
            ReadProducts(EditStep(files, idInput, nameInput, priceInput, descriptionInput, toPrice).0)
              == Ok(products[i := Edited(products[i], nameInput, price, descriptionInput)])
  {
    var products := ReadProducts(files).value;
    var i := IndexOfId(products, ParseInt(idInput).value).value;
    var price := NewPrice(priceInput, products[i].price, toPrice).value;
    var edited := products[i := Edited(products[i], nameInput, price, descriptionInput)];
    assert EditStep(files, idInput, nameInput, priceInput, descriptionInput, toPrice).0
      == files[ProductsPath := Render(edited)];
    ReadProductsCanonical(files);
    EditedCanonical(products[i], nameInput, price, descriptionInput);
    UpdateCanonical(products, i, edited[i]);
    ReadAfterRewrite(files, edited);
  }

  predicate AllCanonical(products: seq<Product>)
  {
    forall j :: 0 <= j < |products| ==> Canonical(products[j])
  }

  /** Replacing one product by a canonical one keeps every product canonical. */
  lemma UpdateCanonical(products: seq<Product>, i: nat, p: Product)
    requires i < |products|
    requires AllCanonical(products)
    requires Canonical(p)
    ensures AllCanonical(products[i := p])
  {
  }

  /** Typed fields that can be stored keep an edited product storable as read. */
  lemma EditedCanonical(p: Product, nameInput: string, price: string, descriptionInput: string)
    requires Canonical(p)
    requires IsPlainField(nameInput) && IsPlainField(price) && IsPlainField(descriptionInput)
    requires RStrip(descriptionInput) == descriptionInput
    ensures Canonical(Edited(p, nameInput, price, descriptionInput))
  {
  }
}
