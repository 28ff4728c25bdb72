/**
 * The CSV half of `Report`: rendering a card's barcodes as one string,
 * flattening the wallets into rows, and the header row. Opening the file,
 * `csv.writer` quoting and the byte-order mark are not part of this model:
 * `ToCsvFile` returns the header and the rows that would be handed to
 * `writerow` and `writerows`.
 */
module Report {
  import opened JsonValue
  import opened Cards
  import opened Text
  import opened CsvHeader

  // ---------------------------------------------------------------------------
  // Barcode rendering (`Report._barcodes_as_string`)

  /** Values an f-string placeholder renders here: everything but lists and dicts. */
  predicate IsScalar(v: Json)
  {
    !v.JArray? && !v.JObject?
  }

  /** What `f"{v}"` produces for a scalar JSON value, i.e. Python's `str(v)`. */
  function Display(v: Json): string
    requires IsScalar(v)
  {
    match v
    case JNull => "None"
    case JBool(b) => if b then "True" else "False"
    case JNumber(n) => if n < 0 then "-" + DecimalString(-n) else DecimalString(n)
    case JString(s) => s
  }

  predicate HasScalar(m: map<string, Json>, key: string)
  {
    key in m && IsScalar(m[key])
  }

  /**
   * A barcode the rendering can format: a dictionary holding the four keys it
   * reads. A missing key raises an uncaught `KeyError` in the source.
   */
  predicate IsBarcode(b: Json)
  {
    && b.JObject?
    && HasScalar(b.members, "altText")
    && HasScalar(b.members, "format")
    && HasScalar(b.members, "message")
    && HasScalar(b.members, "messageEncoding")
  }

  /** The text one barcode contributes, given its 1-based position. */
  function Segment(index: nat, b: Json): string
    requires IsBarcode(b)
  {
    var m := b.members;
    "BarcodeNO: " + DecimalString(index)
    + "; altText: " + Display(m["altText"])
    + "; format: " + Display(m["format"])
    + "; message: " + Display(m["message"])
    + "; messageEncoding: " + Display(m["messageEncoding"]) + ";"
  }

  predicate AreBarcodes(barcodes: seq<Json>)
  {
    forall k :: 0 <= k < |barcodes| ==> IsBarcode(barcodes[k])
  }

  /** `"".join` of one segment per barcode, numbered from 1. */
  function BarcodesAsString(barcodes: seq<Json>): (r: string)
    requires AreBarcodes(barcodes)
    ensures r == "" <==> barcodes == []
  {
    Concat(seq(|barcodes|, k requires 0 <= k < |barcodes| => Segment(k + 1, barcodes[k])))
  }

  /** Appending a barcode appends its segment, numbered one past the existing ones. */
  lemma BarcodesAsStringSnoc(xs: seq<Json>, b: Json)
    requires AreBarcodes(xs) && IsBarcode(b)
    ensures AreBarcodes(xs + [b])
    ensures BarcodesAsString(xs + [b]) == BarcodesAsString(xs) + Segment(|xs| + 1, b)
  {
    var ys := xs + [b];
    assert AreBarcodes(ys) by {
      forall k | 0 <= k < |ys| ensures IsBarcode(ys[k]) {
        if k < |xs| { assert ys[k] == xs[k]; }
      }
    }
    var front := seq(|xs|, k requires 0 <= k < |xs| => Segment(k + 1, xs[k]));
    var all := seq(|ys|, k requires 0 <= k < |ys| => Segment(k + 1, ys[k]));
    assert all == front + [Segment(|xs| + 1, b)];
    ConcatAppend(front, [Segment(|xs| + 1, b)]);
    assert Concat([Segment(|xs| + 1, b)]) == Segment(|xs| + 1, b) + Concat([]);
  }

  /** The barcode of the single-barcode example. */
  const ExampleBarcode: Json := JObject(map[
    "altText" := JString("a"),
    "format" := JString("PDF417"),
    "message" := JString("123"),
    "messageEncoding" := JString("iso-8859-1")])

  // The example's text, assembled a few literals at a time.

  lemma ExampleTextHead()
    ensures "BarcodeNO: " + "1" + "; altText: " + "a" + "; format: " + "PDF417"
      == "BarcodeNO: 1; altText: a; format: PDF417"
  {
    assert "BarcodeNO: " + "1" == "BarcodeNO: 1";
    assert "BarcodeNO: 1" + "; altText: " == "BarcodeNO: 1; altText: ";
    assert "BarcodeNO: 1; altText: " + "a" == "BarcodeNO: 1; altText: a";
    assert "BarcodeNO: 1; altText: a" + "; format: " == "BarcodeNO: 1; altText: a; format: ";
  }

  lemma ExampleText()
    ensures "BarcodeNO: " + "1" + "; altText: " + "a" + "; format: " + "PDF417"
      + "; message: " + "123" + "; messageEncoding: " + "iso-8859-1" + ";"
      == "BarcodeNO: 1; altText: a; format: PDF417; message: 123; messageEncoding: iso-8859-1;"
  {
    ExampleTextHead();
    assert "BarcodeNO: 1; altText: a; format: PDF417" + "; message: " == "BarcodeNO: 1; altText: a; format: PDF417; message: ";
    assert "BarcodeNO: 1; altText: a; format: PDF417; message: " + "123" == "BarcodeNO: 1; altText: a; format: PDF417; message: 123";
    assert "BarcodeNO: 1; altText: a; format: PDF417; message: 123" + "; messageEncoding: " == "BarcodeNO: 1; altText: a; format: PDF417; message: 123; messageEncoding: ";
    assert "BarcodeNO: 1; altText: a; format: PDF417; message: 123; messageEncoding: " + "iso-8859-1" == "BarcodeNO: 1; altText: a; format: PDF417; message: 123; messageEncoding: iso-8859-1";
  }

  /** The example barcode's segment, numbered 1. */
  lemma ExampleSegment()
    ensures IsBarcode(ExampleBarcode)
    ensures Segment(1, ExampleBarcode) == "BarcodeNO: 1; altText: a; format: PDF417; message: 123; messageEncoding: iso-8859-1;"
  {
    var m := ExampleBarcode.members;
    assert DecimalString(1) == "1";
    assert Display(m["altText"]) == "a" && Display(m["format"]) == "PDF417";
    assert Display(m["message"]) == "123" && Display(m["messageEncoding"]) == "iso-8859-1";
    ExampleText();
  }

  /** The single-barcode example: the exact text of one rendered segment. */
  lemma BarcodesAsStringExample()
    ensures IsBarcode(ExampleBarcode)
    ensures BarcodesAsString([ExampleBarcode]) == "BarcodeNO: 1; altText: a; format: PDF417; message: 123; messageEncoding: iso-8859-1;"
  {
    var b := ExampleBarcode;
    ExampleSegment();
    var segs := seq(1, k requires 0 <= k < 1 => Segment(k + 1, [b][k]));
    assert segs == [Segment(1, b)];
    assert Concat(segs) == Segment(1, b) + Concat([]);
  }

  // ---------------------------------------------------------------------------
  // Row flattening (`Report.to_csv_file`)

  /** The six cells written for one card. */
  datatype Row = Row(
    walletName: string,
    barcodes: string,
    description: Json,
    organizationName: Json,
    passTypeIdentifier: Json,
    serialNumber: Json)

  /**
   * A `barcodes` value that `enumerate` walks without raising: a list of
   * barcodes, or an empty string or dictionary, which yield nothing. Null, a
   * number or a boolean is not iterable (`TypeError`); a non-empty string or
   * dictionary yields characters or keys, and indexing a string with
   * `'altText'` raises `TypeError` too.
   */
  predicate RenderableBarcodes(v: Json)
  {
    match v
    case JArray(items) => AreBarcodes(items)
    case JString(s) => s == ""
    case JObject(m) => m == map[]
    case _ => false
  }

  /** The barcode cell: `_barcodes_as_string` of whatever the card's `barcodes` holds. */
  function BarcodesText(v: Json): (r: string)
    requires RenderableBarcodes(v)
    ensures r == "" <==> !v.JArray? || v.items == []
  {
    if v.JArray? then BarcodesAsString(v.items) else ""
  }

  /** A card whose barcodes the row building can render without raising. */
  predicate Renderable(c: Card)
  {
    RenderableBarcodes(c.barcodes)
  }

  predicate WalletRenderable(w: Wallet)
  {
    forall j :: 0 <= j < |w.cards| ==> Renderable(w.cards[j])
  }

  predicate AllRenderable(wallets: seq<Wallet>)
  {
    forall i :: 0 <= i < |wallets| ==> WalletRenderable(wallets[i])
  }

  function CardRow(walletName: string, c: Card): Row
    requires Renderable(c)
  {
    Row(walletName, BarcodesText(c.barcodes), c.description,
        c.organizationName, c.passTypeIdentifier, c.serialNumber)
  }

  /** The rows of one wallet: one per card, in card order. */
  function WalletRows(w: Wallet): seq<Row>
    requires WalletRenderable(w)
  {
    seq(|w.cards|, j requires 0 <= j < |w.cards| => CardRow(w.name, w.cards[j]))
  }

  /** The groups concatenated, first `n` of them, in order. */
  function FlatUpTo<T>(groups: seq<seq<T>>, n: nat): seq<T>
    requires n <= |groups|
  {
    if n == 0 then [] else FlatUpTo(groups, n - 1) + groups[n - 1]
  }

  /** The sizes of the first `n` groups, summed. */
  function SizeUpTo<T>(groups: seq<seq<T>>, n: nat): nat
    requires n <= |groups|
  {
    if n == 0 then 0 else SizeUpTo(groups, n - 1) + |groups[n - 1]|
  }

  lemma {:induction false} FlatUpToSize<T>(groups: seq<seq<T>>, n: nat)
    requires n <= |groups|
    ensures |FlatUpTo(groups, n)| == SizeUpTo(groups, n)
  {
    if n > 0 {
      FlatUpToSize(groups, n - 1);
    }
  }

  /** Element `j` of group `i` sits right after the elements of the groups before it. */
  lemma {:induction false} FlatUpToAt<T>(groups: seq<seq<T>>, n: nat, i: nat, j: nat)
    requires n <= |groups| && i < n && j < |groups[i]|
    ensures SizeUpTo(groups, i) + j < |FlatUpTo(groups, n)|
    ensures FlatUpTo(groups, n)[SizeUpTo(groups, i) + j] == groups[i][j]
  {
    FlatUpToSize(groups, n - 1);
    if i < n - 1 {
      FlatUpToAt(groups, n - 1, i, j);
    }
  }

  /** Each wallet's rows, wallet by wallet in dictionary order. */
  function WalletGroups(wallets: seq<Wallet>): seq<seq<Row>>
    requires AllRenderable(wallets)
  {
    seq(|wallets|, i requires 0 <= i < |wallets| => WalletRows(wallets[i]))
  }

  /** The rows of all wallets. */
  function AllRows(wallets: seq<Wallet>): seq<Row>
    requires AllRenderable(wallets)
  {
    FlatUpTo(WalletGroups(wallets), |wallets|)
  }

  /** The number of cards in the first `n` wallets. */
  function CardsUpTo(wallets: seq<Wallet>, n: nat): nat
    requires n <= |wallets|
  {
    if n == 0 then 0 else CardsUpTo(wallets, n - 1) + |wallets[n - 1].cards|
  }

  /** The number of cards summed over all wallets. */
  function TotalCards(wallets: seq<Wallet>): nat
  {
    CardsUpTo(wallets, |wallets|)
  }

  lemma {:induction false} CardsUpToSize(wallets: seq<Wallet>, n: nat)
    requires n <= |wallets| && AllRenderable(wallets)
    ensures SizeUpTo(WalletGroups(wallets), n) == CardsUpTo(wallets, n)
  {
    if n > 0 {
      CardsUpToSize(wallets, n - 1);
    }
  }

  /** One data row per card. */
  lemma AllRowsCount(wallets: seq<Wallet>)
    requires AllRenderable(wallets)
    ensures |AllRows(wallets)| == TotalCards(wallets)
  {
    FlatUpToSize(WalletGroups(wallets), |wallets|);
    CardsUpToSize(wallets, |wallets|);
  }

  /**
   * Row order: the `j`-th card of the `i`-th wallet sits right after the cards
   * of the wallets before it, and its row is built from that wallet's name and
   * that card's fields.
   */
  lemma AllRowsAt(wallets: seq<Wallet>, i: nat, j: nat)
    requires AllRenderable(wallets)
    requires i < |wallets| && j < |wallets[i].cards|
    ensures CardsUpTo(wallets, i) + j < |AllRows(wallets)|
    ensures AllRows(wallets)[CardsUpTo(wallets, i) + j] == CardRow(wallets[i].name, wallets[i].cards[j])
  {
    var groups := WalletGroups(wallets);
    CardsUpToSize(wallets, i);
    FlatUpToAt(groups, |wallets|, i, j);
    assert groups[i][j] == CardRow(wallets[i].name, wallets[i].cards[j]);
  }

  /** The inner loop of the row building: one row per card of one wallet. */
  method WalletCsvRows(w: Wallet) returns (rows: seq<Row>)
    requires WalletRenderable(w)
    ensures rows == WalletRows(w)
  {
    rows := [];
    var j := 0;
    while j < |w.cards|
      invariant 0 <= j <= |w.cards|
      invariant rows == WalletRows(w)[..j]
    {
      var row := CardRow(w.name, w.cards[j]);
      assert WalletRows(w)[j] == row;
      assert WalletRows(w)[..j + 1] == rows + [row];
      rows := rows + [row];
      j := j + 1;
    }
  }

  /** Builds the data rows with the source's nested loop over wallets and cards. */
  method CsvRows(wallets: seq<Wallet>) returns (rows: seq<Row>)
    requires AllRenderable(wallets)
    ensures rows == AllRows(wallets)
    ensures |rows| == TotalCards(wallets)
  {
    rows := [];
    var i := 0;
    while i < |wallets|
      invariant 0 <= i <= |wallets|
      invariant rows == FlatUpTo(WalletGroups(wallets), i)
    {
      var own := WalletCsvRows(wallets[i]);
      rows := rows + own;
      i := i + 1;
    }
    AllRowsCount(wallets);
  }

  /** `to_csv_file` up to the writer: the header row and the data rows it writes. */
  method ToCsvFile(wallets: seq<Wallet>) returns (header: seq<string>, rows: seq<Row>)
    requires AllRenderable(wallets)
    ensures header == HeaderNames
    ensures rows == AllRows(wallets)
    ensures |rows| == TotalCards(wallets)
  {
    rows := CsvRows(wallets);
    header := HeaderRow();
    HeaderRowColumns();
  }
}
