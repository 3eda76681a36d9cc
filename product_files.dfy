/**
  The flat files of manipulacaoArquivos.py. Local products live in produtos_local.txt, one
  `id;title;price;description` line each; closed orders are appended to Pedidos.txt as
  `timestamp;json` lines. The file system is a map from path to text held by `Disk`.
 */
module ProductFiles {
  import opened Wrappers
  import opened Text
  import opened Seqs

  const ProductsPath := "produtos_local.txt"
  const OrdersPath := "Pedidos.txt"

  /** A product as `lerProdutosLocais` returns it; the price is kept as the text in the file. */
  datatype Product = Product(id: int, title: string, price: string, description: string)

  /**
    The `ValueError` that escapes a caller: `int()` of an id in the file that is not an integer
    literal, or `float()` of a price typed at the console that is not a number.
   */
  datatype ReadError = InvalidLiteral

  /** The line `gravarProdutoFakeStore` writes, without its "\n". */
  function FormatRecord(p: Product): string
  {
    IntToStr(p.id) + ";" + p.title + ";" + p.price + ";" + p.description
  }

  /** A field that survives being written and split back out. */
  predicate IsPlainField(s: string)
  {
    ';' !in s && HasNoLineBreak(s)
  }

  /** A product whose fields can all be written as one line. */
  predicate Storable(p: Product)
  {
    IsPlainField(p.title) && IsPlainField(p.price) && IsPlainField(p.description)
  }

  /** A product that reads back exactly as written: also no trailing blank in the description. */
  predicate Canonical(p: Product)
  {
    Storable(p) && RStrip(p.description) == p.description
  }

  /** What reading one line of the file yields. */
  datatype LineRead = Skipped | Read(product: Product) | BadId

  /**
    One line of `lerProdutosLocais`: stripped, split at ';', kept only with exactly four
    fields; `int()` of the first field raises on anything but an integer literal.
   */
  function ParseLine(line: string): (r: LineRead)
    ensures r.Skipped? <==> |Split(Strip(line), ';')| != 4
    ensures r.BadId? <==> |Split(Strip(line), ';')| == 4 && ParseInt(Split(Strip(line), ';')[0]).None?
    ensures r.Read? ==>
              var parts := Split(Strip(line), ';');
              r.product == Product(ParseInt(parts[0]).value, parts[1], parts[2], parts[3])
  {
    var parts := Split(Strip(line), ';');
    if |parts| != 4 then Skipped
    else
      match ParseInt(parts[0])
      case None => BadId
      case Some(id) => Read(Product(id, parts[1], parts[2], parts[3]))
  }

  /** The fields of a text without line breaks are plain. */
  lemma FieldsArePlain(t: string)
    requires HasNoLineBreak(t)
    ensures forall i :: 0 <= i < |Split(t, ';')| ==> IsPlainField(Split(t, ';')[i])
  {
    SplitKeepsNoLineBreak(t, ';');
  }

  /** The last field of a text that does not end in a blank does not end in one either. */
  lemma LastFieldEndsClean(t: string)
    requires t == [] || !IsSpace(t[|t| - 1])
    ensures var parts := Split(t, ';');
            RStrip(parts[|parts| - 1]) == parts[|parts| - 1]
  {
    SplitLastIsSuffix(t, ';');
    var parts := Split(t, ';');
    var d := parts[|parts| - 1];
    if d != [] {
      assert d[|d| - 1] == t[|t| - 1];
      assert !IsSpace(d[|d| - 1]);
    }
  }

  /**
    A product read from a line is canonical: written back, it reads as the same product (the
    line itself may differ, e.g. " 007;a;b;c" is written back as "7;a;b;c").
   */
  lemma ReadLineCanonical(line: string)
    requires HasNoLineBreak(line)
    requires ParseLine(line).Read?
    ensures Canonical(ParseLine(line).product)
  {
    var stripped := Strip(line);
    StripKeepsNoLineBreak(line);
    FieldsArePlain(stripped);
    LastFieldEndsClean(stripped);
  }

  /** A storable product's line reads back as the product, less trailing blanks of its description. */
  lemma ParseFormatted(p: Product)
    requires Storable(p)
    ensures ParseLine(FormatRecord(p)) == Read(p.(description := RStrip(p.description)))
  {
    var idText := IntToStr(p.id);
    var head := idText + [';'] + p.title + [';'] + p.price + [';'];
    assert FormatRecord(p) == head + p.description;
    assert FormatRecord(p)[0] == idText[0];
    assert LStrip(FormatRecord(p)) == FormatRecord(p);
    RStripAfter(head, p.description);
    var stripped := [idText, p.title, p.price, RStrip(p.description)];
    JoinFour(idText, p.title, p.price, RStrip(p.description), ';');
    assert Join(stripped, ';') == head + RStrip(p.description);
    assert ';' !in RStrip(p.description) by {
      RStripIsPrefix(p.description);
    }
    assert ';' !in idText;
    SplitJoin(stripped, ';');
    ParseIntOfIntToStr(p.id);
  }

  /** What each line of a file yields, in order. */
  function ParseAll(lines: seq<string>): (r: seq<LineRead>)
    ensures |r| == |lines|
    ensures forall i :: 0 <= i < |lines| ==> r[i] == ParseLine(lines[i])
  {
    if lines == [] then [] else ParseAll(lines[..|lines| - 1]) + [ParseLine(lines[|lines| - 1])]
  }

  /** Reading one more line: a bad id ends the read with an error. */
  function Step(acc: Result<seq<Product>, ReadError>, line: LineRead): Result<seq<Product>, ReadError>
  {
    match acc
    case Err(e) => Err(e)
    case Ok(products) =>
      match line
      case Skipped => Ok(products)
      case BadId => Err(InvalidLiteral)
      case Read(p) => Ok(products + [p])
  }

  /** The products of a run of line results, in order; the first bad id is an error. */
  function Collect(results: seq<LineRead>): (r: Result<seq<Product>, ReadError>)
    ensures r.Ok? ==> |r.value| <= |results|
  {
    if results == [] then Ok([])
    else Step(Collect(results[..|results| - 1]), results[|results| - 1])
  }

  lemma CollectSnoc(results: seq<LineRead>, line: LineRead)
    ensures Collect(results + [line]) == Step(Collect(results), line)
  {
    assert (results + [line])[..|results|] == results;
  }

  /** The products of the file's lines: `lerProdutosLocais` on an existing file. */
  function ParseProducts(lines: seq<string>): Result<seq<Product>, ReadError>
  {
    Collect(ParseAll(lines))
  }

  /** Reading is line by line: the products of two runs of lines are concatenated. */
  lemma {:induction false} CollectConcat(a: seq<LineRead>, b: seq<LineRead>)
    ensures Collect(a + b) ==
      match Collect(a)
      case Err(e) => Err(e)
      case Ok(x) =>
        match Collect(b)
        case Err(e) => Err(e)
        case Ok(y) => Ok(x + y)
  {
    if b == [] {
      assert a + b == a;
      if Collect(a).Ok? {
        assert Collect(a).value + [] == Collect(a).value;
      }
    } else {
      var init := b[..|b| - 1];
      assert (a + b)[..|a + b| - 1] == a + init;
      assert (a + b)[|a + b| - 1] == b[|b| - 1];
      CollectConcat(a, init);
      if Collect(a).Ok? && Collect(init).Ok? {
        var x, y := Collect(a).value, Collect(init).value;
        match b[|b| - 1]
        case Skipped =>
        case BadId =>
        case Read(p) =>
          assert x + y + [p] == x + (y + [p]);
      }
    }
  }

  /** Line results are per line: those of two runs of lines are concatenated. */
  lemma {:induction false} ParseAllConcat(a: seq<string>, b: seq<string>)
    ensures ParseAll(a + b) == ParseAll(a) + ParseAll(b)
  {
    if b == [] {
      assert a + b == a;
    } else {
      var init := b[..|b| - 1];
      assert (a + b)[..|a + b| - 1] == a + init;
      assert (a + b)[|a + b| - 1] == b[|b| - 1];
      ParseAllConcat(a, init);
    }
  }

  /** Reading the first `i + 1` lines is reading the first `i`, then line `i`. */
  lemma ReadOneMore(lines: seq<string>, i: nat)
    requires i < |lines|
    ensures ParseProducts(lines[..i + 1]) == Step(ParseProducts(lines[..i]), ParseLine(lines[i]))
  {
    assert lines[..i + 1][..i] == lines[..i];
    CollectSnoc(ParseAll(lines[..i]), ParseLine(lines[i]));
  }

  /** Once the first `k` lines fail to read, so does the whole file. */
  lemma ReadErrorSticks(lines: seq<string>, k: nat)
    requires k <= |lines|
    requires ParseProducts(lines[..k]).Err?
    ensures ParseProducts(lines) == ParseProducts(lines[..k])
  {
    assert ParseAll(lines) == ParseAll(lines[..k]) + ParseAll(lines[k..]) by {
      assert lines == lines[..k] + lines[k..];
      ParseAllConcat(lines[..k], lines[k..]);
    }
    CollectConcat(ParseAll(lines[..k]), ParseAll(lines[k..]));
  }

  /** Every product read from lines without line breaks can be written back unchanged. */
  lemma {:induction false} CollectCanonical(lines: seq<string>)
    requires forall i :: 0 <= i < |lines| ==> HasNoLineBreak(lines[i])
    requires ParseProducts(lines).Ok?
    ensures forall i :: 0 <= i < |ParseProducts(lines).value| ==> Canonical(ParseProducts(lines).value[i])
  {
    if lines != [] {
      var init := lines[..|lines| - 1];
      var last := lines[|lines| - 1];
      CollectSnoc(ParseAll(init), ParseLine(last));
      CollectCanonical(init);
      if ParseLine(last).Read? {
        ReadLineCanonical(last);
      }
    }
  }

  /** The text at `path`, or "" for a missing file. */
  function Contents(files: map<string, string>, path: string): string
  {
    if path in files then files[path] else ""
  }

  /** `lerProdutosLocais()`: a missing file results as no products. */
  function ReadProducts(files: map<string, string>): (r: Result<seq<Product>, ReadError>)
    ensures ProductsPath !in files ==> r == Ok([])
  {
    if ProductsPath !in files then Ok([]) else ParseProducts(Lines(files[ProductsPath]))
  }

  /** Whatever `lerProdutosLocais` returns can be written back unchanged. */
  lemma ReadProductsCanonical(files: map<string, string>)
    requires ReadProducts(files).Ok?
    ensures forall i :: 0 <= i < |ReadProducts(files).value| ==> Canonical(ReadProducts(files).value[i])
  {
    if ProductsPath in files {
      var lines := Lines(files[ProductsPath]);
      LinesHaveNoLineBreak(files[ProductsPath]);
      CollectCanonical(lines);
    }
  }

  /** Text that ends a line, so whatever is appended starts a new one. */
  predicate EndsLine(t: string)
  {
    t == [] || IsLineBreak(t[|t| - 1])
  }

  /** A line appended to text that ends a line is read after the lines already there. */
  lemma ParseAppendedLine(t: string, line: string)
    requires EndsLine(t)
    requires HasNoLineBreak(line)
    ensures ParseProducts(Lines(t + line + "\n")) == Step(ParseProducts(Lines(t)), ParseLine(line))
  {
    assert t + line + "\n" == t + (line + "\n");
    LinesConcat(t, line + "\n");
    LinesOfTerminated(line, '\n');
    assert (Lines(t) + [line])[..|Lines(t)|] == Lines(t);
    CollectSnoc(ParseAll(Lines(t)), ParseLine(line));
  }

  /**
    A product's line appended to text that ends a line reads as that product, less trailing
    blanks of its description, after the products already there.
   */
  lemma ParseAppendedProduct(t: string, p: Product)
    requires Storable(p)
    requires EndsLine(t)
    ensures ParseProducts(Lines(t + FormatRecord(p) + "\n")) ==
              match ParseProducts(Lines(t))
              case Err(e) => Err(e)
              case Ok(products) => Ok(products + [p.(description := RStrip(p.description))])
  {
    FormattedHasNoLineBreak(p);
    ParseAppendedLine(t, FormatRecord(p));
    ParseFormatted(p);
  }

  /** Appending one line to a file that ends a line reads that line after the others. */
  lemma ReadAfterAppendLine(files: map<string, string>, line: string)
    requires EndsLine(Contents(files, ProductsPath))
    requires HasNoLineBreak(line)
    ensures var after := files[ProductsPath := Contents(files, ProductsPath) + line + "\n"];
            ReadProducts(after) == Step(ReadProducts(files), ParseLine(line))
  {
    ParseAppendedLine(Contents(files, ProductsPath), line);
    assert Lines("") == [] && ParseAll([]) == [];
  }

  /**
    Appending a product's line to a file that ends a line adds exactly that product, less
    trailing blanks of its description, after the products already there.
   */
  lemma ReadAfterAppend(files: map<string, string>, p: Product)
    requires Storable(p)
    requires EndsLine(Contents(files, ProductsPath))
    ensures var after := files[ProductsPath := Contents(files, ProductsPath) + FormatRecord(p) + "\n"];
            ReadProducts(after) ==
              match ReadProducts(files)
              case Err(e) => Err(e)
              case Ok(products) => Ok(products + [p.(description := RStrip(p.description))])
  {
    ParseAppendedProduct(Contents(files, ProductsPath), p);
    assert Lines("") == [] && ParseAll([]) == [];
  }

  lemma FormattedHasNoLineBreak(p: Product)
    requires Storable(p)
    ensures HasNoLineBreak(FormatRecord(p))
  {
    var idText := IntToStr(p.id);
    var t := FormatRecord(p);
    forall i | 0 <= i < |t| ensures !IsLineBreak(t[i]) {
      if i < |idText| {
        assert t[i] == idText[i];
      }
    }
  }

  /** The text of a file holding exactly these products, one line each. */
  function Render(products: seq<Product>): (t: string)
    ensures EndsLine(t)
  {
    if products == [] then ""
    else Render(products[..|products| - 1]) + FormatRecord(products[|products| - 1]) + "\n"
  }

  /** A file rendered from canonical products reads back as exactly those products. */
  lemma {:induction false} ReadRendered(products: seq<Product>)
    requires forall i :: 0 <= i < |products| ==> Canonical(products[i])
    ensures ParseProducts(Lines(Render(products))) == Ok(products)
  {
    if products == [] {
      assert Lines("") == [] && ParseAll([]) == [];
    } else {
      var init := products[..|products| - 1];
      var p := products[|products| - 1];
      assert init + [p] == products;
      ReadRendered(init);
      ParseAppendedProduct(Render(init), p);
    }
  }

  /** `next((p for p in products if p['id'] == id), None)`, as the position of that product. */
  function IndexOfId(products: seq<Product>, id: int): (r: Option<nat>)
    ensures r.Some? ==> r.value < |products| && products[r.value].id == id
    ensures r.Some? ==> forall j :: 0 <= j < r.value ==> products[j].id != id
    ensures r.None? <==> forall j :: 0 <= j < |products| ==> products[j].id != id
  {
    FirstIndex(products, (p: Product) => p.id == id)
  }

  /** The first product with the id is the one `IndexOfId` finds. */
  lemma IndexOfIdAt(products: seq<Product>, id: int, i: nat)
    requires i < |products| && products[i].id == id
    requires forall j :: 0 <= j < i ==> products[j].id != id
    ensures IndexOfId(products, id) == Some(i)
  {
  }

  /** `[p for p in products if p['id'] != id]`: the products with another id. */
  function WithoutId(products: seq<Product>, id: int): (r: seq<Product>)
    ensures forall p :: p in r <==> p in products && p.id != id
  {
    Filter(products, (p: Product) => p.id != id)
  }

  /** Filtering by id keeps the order: it distributes over concatenation ... */
  lemma WithoutIdConcat(a: seq<Product>, b: seq<Product>, id: int)
    ensures WithoutId(a + b, id) == WithoutId(a, id) + WithoutId(b, id)
  {
    FilterConcat(a, b, (p: Product) => p.id != id);
  }

  /** ... and keeps a single product exactly when its id differs. */
  lemma WithoutIdOne(p: Product, id: int)
    ensures WithoutId([p], id) == if p.id == id then [] else [p]
  {
    assert [p][1..] == [];
  }

  /** One item of the open order: the `(id, title, price)` tuple of pedidos.py. */
  datatype OrderItem = OrderItem(id: int, title: string, price: string)

  /** `{"id": ..., "nome": ..., "preco": ...}`, as `gravarPedidos` serialises an item. */
  datatype OrderDict = OrderDict(id: int, name: string, price: string)

  /** The list comprehension of `gravarPedidos`. */
  function ToOrderDicts(items: seq<OrderItem>): (r: seq<OrderDict>)
    ensures |r| == |items|
    ensures forall i :: 0 <= i < |r| ==>
              r[i].id == items[i].id && r[i].name == items[i].title && r[i].price == items[i].price
  {
    if items == [] then []
    else [OrderDict(items[0].id, items[0].title, items[0].price)] + ToOrderDicts(items[1..])
  }

  /** The file system as the functions of manipulacaoArquivos.py see it. */
  class Disk {
    var files: map<string, string>

    constructor (files: map<string, string>)
      ensures this.files == files
    {
      this.files := files;
    }

    /** `gravarProdutoFakeStore(id, title, price, description)`: appends one line. */
    method AppendProduct(p: Product)
      modifies this
      ensures files == old(files)[ProductsPath := Contents(old(files), ProductsPath) + FormatRecord(p) + "\n"]
    {
      var line := FormatRecord(p);
      files := files[ProductsPath := Contents(files, ProductsPath) + line + "\n"];
    }

    /** `lerProdutosLocais()`: reads the lines in order, keeping the four-field ones. */
    method ReadLocalProducts() returns (r: Result<seq<Product>, ReadError>)
      ensures r == ReadProducts(files)
    {
      if ProductsPath !in files {
        return Ok([]);
      }
      var lines := Lines(files[ProductsPath]);
      var products: seq<Product> := [];
      for i := 0 to |lines|
        invariant ParseProducts(lines[..i]) == Ok(products)
      {
        var read := ParseLine(lines[i]);
        ReadOneMore(lines, i);
        match read {
          case Skipped =>
          case BadId =>
            ReadErrorSticks(lines, i + 1);
            return Err(InvalidLiteral);
          case Read(p) =>
            products := products + [p];
        }
      }
      assert lines[..|lines|] == lines;
      r := Ok(products);
    }

    /**
      `gravarPedidos(listaPedido, datahora)`: appends `timestamp;json` and a "\n", where
      `dumps` stands for `json.dumps` and `stamp` for `str(datahora)`.
     */
    method AppendOrder(items: seq<OrderItem>, stamp: string, dumps: seq<OrderDict> -> string)
      modifies this
      ensures files == old(files)[OrdersPath := Contents(old(files), OrdersPath) + stamp + ";" + dumps(ToOrderDicts(items)) + "\n"]
    {
      var dicts := ToOrderDicts(items);
      files := files[OrdersPath := Contents(files, OrdersPath) + stamp + ";" + dumps(dicts) + "\n"];
    }

    /** `apagarArquivosTemporarios()`: removes whichever of the two files exist. */
    method DeleteTemporaryFiles()
      modifies this
      ensures files == old(files) - {ProductsPath, OrdersPath}
    {
      var names := [ProductsPath, OrdersPath];
      for i := 0 to |names|
        invariant forall k :: k in files <==> k in old(files) && k !in names[..i]
        invariant forall k :: k in files ==> files[k] == old(files)[k]
      {
        if names[i] in files {
          files := files - {names[i]};
        }
        assert names[..i + 1] == names[..i] + [names[i]];
      }
      assert names[..|names|] == names;
    }
  }

  /** Each call of `gravarPedidos` adds exactly one line to the orders file. */
  lemma OrderAppendsOneLine(before: string, stamp: string, json: string)
    requires EndsLine(before)
    requires HasNoLineBreak(stamp + ";" + json)
    ensures Lines(before + stamp + ";" + json + "\n") == Lines(before) + [stamp + ";" + json]
  {
    assert before + stamp + ";" + json + "\n" == before + (stamp + ";" + json + "\n");
    LinesConcat(before, stamp + ";" + json + "\n");
    LinesOfTerminated(stamp + ";" + json, '\n');
  }
}
