/**
 * `parse_wallet` and its inner loop `_parse_nested_zip_files`: every inner
 * archive of a wallet either yields one `Card`, is skipped silently, or raises
 * an error that ends the whole call.
 *
 * Opening zip files, temporary directories, directory listing and the UTF-8
 * and JSON decoding of `pass.json` are abstracted: an inner archive is given
 * as what those steps would produce.
 */
module ParseWallet {
  import opened JsonValue
  import opened Cards

  datatype Result<T, E> = Success(value: T) | Failure(error: E)

  /**
   * The exceptions that escape `parse_wallet` (everything but `KeyError`),
   * grouped by the step that raises them rather than by Python class.
   */
  datatype ExtractError =
    | BadZipFile           // the wallet or an inner file cannot be opened as a zip archive (a directory included)
    | UndecodableDocument  // `/pass.json` cannot be extracted or read as UTF-8 JSON text
    | NotAnObject          // the document is not a JSON object, so `data["barcodes"]` is a `TypeError`

  /** What one inner archive turns out to be once opened. */
  datatype InnerArchive =
    | CorruptArchive               // `zipfile.PyZipFile(f)` raises, whatever the exception
    | MissingPassJson              // no `/pass.json` member: `extract` raises `KeyError`
    | UndecodablePassJson          // the member exists but extracting it (encryption, CRC) or decoding it as JSON text raises
    | PassJson(document: Json)     // the decoded document

  /** The outer wallet archive: corrupt, or the inner archives found in it, in listing order. */
  datatype WalletArchive =
    | CorruptWallet
    | WalletFiles(inner: seq<InnerArchive>)

  /** The outcome of one pass of the loop body. */
  datatype Step = Yield(card: Card) | Skip | Fatal(error: ExtractError)

  /** The five keys the `Card` constructor reads from the document. */
  const RequiredKeys: set<string> :=
    {"barcodes", "serialNumber", "passTypeIdentifier", "organizationName", "description"}

  /** The document keys of a card, each holding the card's field it was copied into. */
  function PassDocument(c: Card): (m: map<string, Json>)
    ensures m.Keys == RequiredKeys
  {
    map[
      "barcodes" := c.barcodes,
      "serialNumber" := c.serialNumber,
      "passTypeIdentifier" := c.passTypeIdentifier,
      "organizationName" := c.organizationName,
      "description" := c.description]
  }

  /**
   * The body of the loop for one inner archive: the `try` block, with
   * `KeyError` turned into `Skip` and every other exception into `Fatal`.
   */
  function ItemStep(item: InnerArchive): (s: Step)
    ensures s.Yield? <==>
      item.PassJson? && item.document.JObject? && RequiredKeys <= item.document.members.Keys
    ensures s.Skip? <==>
      item.MissingPassJson? ||
      (item.PassJson? && item.document.JObject? && !(RequiredKeys <= item.document.members.Keys))
  {
    match item
    case CorruptArchive => Fatal(BadZipFile)
    case MissingPassJson => Skip
    case UndecodablePassJson => Fatal(UndecodableDocument)
    case PassJson(doc) =>
      if !doc.JObject? then Fatal(NotAnObject)
      else
        var m := doc.members;
        if RequiredKeys <= m.Keys
        then Yield(Card(m["barcodes"], m["serialNumber"], m["passTypeIdentifier"],
                        m["organizationName"], m["description"]))
        else Skip
  }

  /** A yielded card holds exactly the document's values for the five keys. */
  lemma YieldedCardMatchesDocument(item: InnerArchive)
    requires ItemStep(item).Yield?
    ensures forall k :: k in RequiredKeys ==>
      k in item.document.members && PassDocument(ItemStep(item).card)[k] == item.document.members[k]
  {
  }

  /** Every card is recovered from a document holding its fields under the five keys. */
  lemma CardFromPassDocument(c: Card, extra: map<string, Json>)
    ensures ItemStep(PassJson(JObject(extra + PassDocument(c)))) == Yield(c)
  {
    var m := extra + PassDocument(c);
    assert m["barcodes"] == c.barcodes && m["serialNumber"] == c.serialNumber;
  }

  /**
   * The whole loop as a function: the cards of the inner archives in order,
   * or the first fatal error.
   */
  function ExtractAll(items: seq<InnerArchive>): Result<seq<Card>, ExtractError>
  {
    if items == [] then Success([])
    else
      match ExtractAll(items[..|items| - 1])
      case Failure(e) => Failure(e)
      case Success(cards) =>
        match ItemStep(items[|items| - 1])
        case Fatal(e) => Failure(e)
        case Skip => Success(cards)
        case Yield(c) => Success(cards + [c])
  }

  /** Extracting a concatenation: the first part's outcome, extended by the second's. */
  lemma {:induction false} ExtractAppend(p: seq<InnerArchive>, q: seq<InnerArchive>)
    ensures ExtractAll(p + q) ==
      match ExtractAll(p)
      case Failure(e) => Failure(e)
      case Success(a) =>
        match ExtractAll(q)
        case Failure(e) => Failure(e)
        case Success(b) => Success(a + b)
    decreases |q|
  {
    if q == [] {
      assert p + q == p;
      if ExtractAll(p).Success? {
        assert ExtractAll(p).value + [] == ExtractAll(p).value;
      }
    } else {
      var n := |q| - 1;
      assert (p + q)[..|p + q| - 1] == p + q[..n];
      assert (p + q)[|p + q| - 1] == q[n];
      ExtractAppend(p, q[..n]);
      if ExtractAll(p).Success? && ExtractAll(q[..n]).Success? && ItemStep(q[n]).Yield? {
        var a, b := ExtractAll(p).value, ExtractAll(q[..n]).value;
        assert (a + b) + [ItemStep(q[n]).card] == a + (b + [ItemStep(q[n]).card]);
      }
    }
  }

  /** Once an item has failed, nothing after it changes the outcome. */
  lemma FailurePersists(p: seq<InnerArchive>, q: seq<InnerArchive>)
    requires ExtractAll(p).Failure?
    ensures ExtractAll(p + q) == ExtractAll(p)
  {
    ExtractAppend(p, q);
  }

  /** The call succeeds exactly when no inner archive raises an uncaught error. */
  lemma {:induction false} ExtractSucceedsIff(items: seq<InnerArchive>)
    ensures ExtractAll(items).Success? <==>
      forall k :: 0 <= k < |items| ==> !ItemStep(items[k]).Fatal?
  {
    if items != [] {
      var n := |items| - 1;
      ExtractSucceedsIff(items[..n]);
      assert forall k :: 0 <= k < n ==> items[..n][k] == items[k];
    }
  }

  /** A failure reports the error of the first inner archive that raised one. */
  lemma {:induction false} ExtractFailsAtFirstFatal(items: seq<InnerArchive>, i: nat)
    requires i < |items| && ItemStep(items[i]).Fatal?
    requires forall k :: 0 <= k < i ==> !ItemStep(items[k]).Fatal?
    ensures ExtractAll(items) == Failure(ItemStep(items[i]).error)
  {
    var front := items[..i];
    ExtractSucceedsIff(front);
    assert forall k :: 0 <= k < i ==> front[k] == items[k];
    assert items[..i + 1][..i] == front;
    assert ExtractAll(items[..i + 1]) == Failure(ItemStep(items[i]).error);
    FailurePersists(items[..i + 1], items[i + 1..]);
    assert items[..i + 1] + items[i + 1..] == items;
  }

  /** Conversely, a failure names an inner archive that raised it, the first one to raise. */
  lemma {:induction false} ExtractFailureHasCause(items: seq<InnerArchive>) returns (i: nat)
    requires ExtractAll(items).Failure?
    ensures i < |items| && ItemStep(items[i]) == Fatal(ExtractAll(items).error)
    ensures forall k :: 0 <= k < i ==> !ItemStep(items[k]).Fatal?
  {
    var n := |items| - 1;
    var front := items[..n];
    assert forall k :: 0 <= k < n ==> front[k] == items[k];
    if ExtractAll(front).Failure? {
      i := ExtractFailureHasCause(front);
    } else {
      ExtractSucceedsIff(front);
      i := n;
    }
  }

  /**
   * The cards are the in-order subsequence of the inner archives that yield
   * one: `idx` lists, strictly increasing, the positions that produced each
   * card, and every other position was skipped.
   */
  lemma {:induction false} ExtractIsSubsequence(items: seq<InnerArchive>) returns (idx: seq<nat>)
    requires ExtractAll(items).Success?
    ensures |idx| == |ExtractAll(items).value|
    ensures forall a :: 0 <= a < |idx| ==> idx[a] < |items|
    ensures forall a, b :: 0 <= a < b < |idx| ==> idx[a] < idx[b]
    ensures forall a :: 0 <= a < |idx| ==> ItemStep(items[idx[a]]) == Yield(ExtractAll(items).value[a])
    ensures forall k :: 0 <= k < |items| && k !in idx ==> ItemStep(items[k]) == Skip
  {
    if items == [] {
      idx := [];
    } else {
      var n := |items| - 1;
      var front := items[..n];
      assert forall k :: 0 <= k < n ==> front[k] == items[k];
      var sub := ExtractIsSubsequence(front);
      match ItemStep(items[n])
      case Skip =>
        idx := sub;
      case Yield(c) =>
        idx := sub + [n];
    }
  }

  /** At most one card per inner archive. */
  lemma {:induction false} ExtractCountBound(items: seq<InnerArchive>)
    requires ExtractAll(items).Success?
    ensures |ExtractAll(items).value| <= |items|
  {
    if items != [] {
      ExtractCountBound(items[..|items| - 1]);
    }
  }

  /** An inner archive that is skipped can be removed without changing the outcome. */
  lemma SkipIsInvisible(p: seq<InnerArchive>, s: InnerArchive, q: seq<InnerArchive>)
    requires ItemStep(s) == Skip
    ensures ExtractAll(p + [s] + q) == ExtractAll(p + q)
  {
    ExtractAppend(p + [s], q);
    ExtractAppend(p, [s]);
    ExtractAppend(p, q);
    assert [s][..0] == [];
    if ExtractAll(p).Success? {
      assert ExtractAll(p).value + [] == ExtractAll(p).value;
    }
  }

  /**
   * Two inner archives, one holding a complete document and one without
   * `/pass.json`: the wallet yields exactly the one card.
   */
  lemma OneValidOneMissing(c: Card)
    ensures ExtractAll([PassJson(JObject(PassDocument(c))), MissingPassJson]) == Success([c])
  {
    var items := [PassJson(JObject(PassDocument(c))), MissingPassJson];
    CardFromPassDocument(c, map[]);
    assert map[] + PassDocument(c) == PassDocument(c);
    var first := [PassJson(JObject(PassDocument(c)))];
    assert first[..0] == [];
    assert ItemStep(first[0]) == Yield(c);
    assert ExtractAll(first[..0]) == Success([]);
    assert [] + [c] == [c];
    assert ExtractAll(first) == Success([c]);
    assert items[..1] == first;
  }

  /** `_parse_nested_zip_files`: the loop over the inner archives, appending cards. */
  method ParseNestedZipFiles(items: seq<InnerArchive>) returns (r: Result<seq<Card>, ExtractError>)
    ensures r == ExtractAll(items)
    ensures r.Success? ==> |r.value| <= |items|
  {
    var cards: seq<Card> := [];
    var i := 0;
    while i < |items|
      invariant 0 <= i <= |items|
      invariant ExtractAll(items[..i]) == Success(cards)
      invariant |cards| <= i
    {
      assert items[..i + 1][..i] == items[..i];
      match ItemStep(items[i]) {
        case Fatal(e) =>
          FailurePersists(items[..i + 1], items[i + 1..]);
          assert items[..i + 1] + items[i + 1..] == items;
          return Failure(e);
        case Skip =>
        case Yield(c) =>
          cards := cards + [c];
      }
      i := i + 1;
    }
    assert items[..i] == items;
    r := Success(cards);
  }

  /** `parse_wallet`: open the wallet, then run the loop over what it contains. */
  method ParseWallet(wallet: WalletArchive) returns (r: Result<seq<Card>, ExtractError>)
    ensures wallet.CorruptWallet? ==> r == Failure(BadZipFile)
    ensures wallet.WalletFiles? ==> r == ExtractAll(wallet.inner)
    ensures wallet == WalletFiles([]) ==> r == Success([])
  {
    match wallet
    case CorruptWallet =>
      r := Failure(BadZipFile);
    case WalletFiles(inner) =>
      r := ParseNestedZipFiles(inner);
  }
}
