# parse_ywe_wallets, modelled in Dafny

`parse_ywe_wallets.py` reads `.ywe` wallet files (zip archives whose members
are themselves zip archives, one per pass), pulls a `Card` out of the
`/pass.json` document of every inner archive, and writes all cards, grouped by
wallet, to a JSON report and a CSV report.

This project models the three pieces of that program that carry logic:

- **Card extraction** (`parse_wallet` and its loop `_parse_nested_zip_files`),
  module `ParseWallet` in `parse_wallet.dfy`. Each inner archive is given as
  what opening and decoding it produces (`InnerArchive`). One pass of the loop
  body is the function `ItemStep`. It yields a card, skips the item (the
  `KeyError` the `except` clause swallows), or fails with an exception that
  escapes the loop. The loop itself is the method `ParseNestedZipFiles`. It is
  proved equal to the function `ExtractAll`, and the lemmas about
  `ExtractAll` state what the loop promises.
- **Barcode rendering** (`Report._barcodes_as_string`), module `Report` in
  `report.dfy`. It is a function over the list of barcode dictionaries, built
  like the source: one segment per barcode, numbered from 1, joined with `""`.
- **CSV content** (`Report.to_csv_file` up to the writer), also in `Report`.
  The nested loop that builds the rows is the method `CsvRows`, with its inner
  loop over one wallet's cards as the method `WalletCsvRows`. They are proved
  equal to the functions `AllRows` and `WalletRows`: each wallet's rows, one
  per card, appended wallet after wallet (`FlatUpTo`). The header, module
  `CsvHeader` in `csv_header.dfy`, is the literal line split on `,`, proved to
  be the six column names, typos included.

Supporting modules:

- `JsonValue` (`json_value.dfy`): the decoded JSON document.
- `Cards` (`cards.dfy`): the `Card` record and one wallet's entry
  (name, cards).
- `Text` (`text.dfy`): `"".join` with its append law, `str(n)` for the barcode
  index with its round-trip lemma, and `str.split` with its inverse `join`,
  with a round-trip lemma in each direction.

Modelling choices:

- The `Card` dataclass annotates its fields as strings and a list of string
  dictionaries. Python does not enforce these annotations, and the extraction
  copies `data[...]` verbatim. Card fields are therefore `Json` values.
- The `Wallets` dictionary is modelled as the sequence of its `items()`, in
  insertion order. That is the order `to_csv_file` iterates in.
- Exceptions other than `KeyError` escape `_parse_nested_zip_files`, and so
  they end `parse_wallet`. They are the `Failure` side of `Result`. Among them
  are a file that is not a zip archive (`BadZipFile` from `zipfile.PyZipFile`,
  outside the `try`), a `pass.json` that is not UTF-8 JSON text (a
  `ValueError`), and a document that is not a JSON object (`data["barcodes"]`
  raises `TypeError`). Every other exception is fatal as well, and the model
  files it under the step that raised it. Anything raised while opening an
  inner file is `CorruptArchive`, reported as `BadZipFile`; this includes a
  directory among the extracted entries (`IsADirectoryError`). Anything raised
  while extracting or reading an existing `/pass.json` is `UndecodablePassJson`,
  reported as `UndecodableDocument`; this includes an encrypted member
  (`RuntimeError`) and a CRC mismatch (`BadZipFile` inside the `try`). The
  model keeps whether an item yields, is skipped or is fatal. It does not keep
  the Python exception class of a fatal error.
- A missing `/pass.json` member and a missing key both raise `KeyError`, so
  both are a silent skip.
- Row building in `to_csv_file` sits outside the `try`, so anything that makes
  `_barcodes_as_string` raise is an uncaught error. The model states the cards
  it can render as the precondition `Renderable`. `enumerate` walks a card's
  `barcodes` value: a list of barcodes renders segment by segment; an empty
  string or an empty dictionary yields nothing and renders as `""`. Null, a
  number or a boolean is not iterable. A non-empty string or dictionary yields
  characters or keys, and `b['altText']` on a string raises. A barcode that is
  not a dictionary, or that lacks one of the four keys, raises as well.

Details of the code that the model keeps:

- Building a card reads five keys of the document: `barcodes`,
  `serialNumber`, `passTypeIdentifier`, `organizationName` and `description`
  (`parse_ywe_wallets.py` lines 98-102). A document lacking any one is skipped.
- The rendering reads `altText`, `format`, `message` and `messageEncoding` of
  every barcode unconditionally (line 51).
- The header is the literal line split on `,` (lines 77-79), so its cells
  carry no surrounding spaces.

## Model

| member | source | states |
|---|---|---|
| `Report.BarcodesAsString` | parse_ywe_wallets.py:47-54 | the rendered string is empty exactly when the barcode list is empty |
| `Report.BarcodesAsStringSnoc` | parse_ywe_wallets.py:49-53 | rendering `xs + [b]` is rendering `xs` followed by `b`'s segment numbered `|xs| + 1`, with the four fields altText, format, message, messageEncoding in that order, each closed by `;` |
| `Report.BarcodesAsStringExample` | parse_ywe_wallets.py:51-52 | one barcode `{a, PDF417, 123, iso-8859-1}` renders exactly as `BarcodeNO: 1; altText: a; format: PDF417; message: 123; messageEncoding: iso-8859-1;` |
| `Text.ConcatAppend` | parse_ywe_wallets.py:49 | `"".join` of a concatenation of lists is the concatenation of the two joins |
| `Text.DecimalString` | parse_ywe_wallets.py:51 | the index placeholder renders as a non-empty string of decimal digits, with no leading zero except for 0 itself |
| `Text.DecimalRoundTrip` | parse_ywe_wallets.py:51 | reading the rendered index back as a decimal number gives the index |
| `Report.BarcodesText` | parse_ywe_wallets.py:49-53 | the barcode cell of a row is empty exactly when the card's `barcodes` value enumerates nothing: an empty list, or an empty string or dictionary |
| `Report.WalletCsvRows` | parse_ywe_wallets.py:62-72 | the inner loop over one wallet's cards builds exactly `WalletRows(w)`: one row per card, in card order |
| `Report.CsvRows` | parse_ywe_wallets.py:60-72 | the nested loop over wallets and their cards builds exactly `AllRows(wallets)`, and as many rows as there are cards in all wallets |
| `Report.FlatUpToSize` | parse_ywe_wallets.py:60-72 | appending the rows of wallet after wallet gives as many rows as the wallets contribute together |
| `Report.FlatUpToAt` | parse_ywe_wallets.py:60-72 | after appending group after group, element `j` of group `i` sits at the sizes of the earlier groups plus `j` |
| `Report.CardsUpToSize` | parse_ywe_wallets.py:61-62 | each wallet contributes exactly one row per card, so the rows of the first `n` wallets number their cards |
| `Report.AllRowsCount` | parse_ywe_wallets.py:60-72 | the number of data rows equals the number of cards summed over all wallets |
| `Report.AllRowsAt` | parse_ywe_wallets.py:61-71 | the row at position (cards of earlier wallets) + j is (wallet name, rendered barcodes, description, organization name, pass type identifier, serial number) of card j of wallet i: wallet order, then card order |
| `Text.Split` | parse_ywe_wallets.py:77-79 | `split(",")` gives at least one part, and no part contains the separator |
| `Text.JoinSplit` | parse_ywe_wallets.py:77-79 | joining the parts of a split with the separator gives back the original line |
| `Text.SplitJoin` | parse_ywe_wallets.py:77-79 | splitting a join of separator-free parts gives back exactly those parts |
| `CsvHeader.HeaderLineIsJoin` | parse_ywe_wallets.py:77 | the literal header line is the six names joined by `,` with no spaces around them |
| `CsvHeader.HeaderRowColumns` | parse_ywe_wallets.py:76-80 | the header row is exactly `Wallet Name`, `Barecodes`, `Description`, `Organization Name`, `Pass Type Identifier`, `Sertial Number` |
| `Report.ToCsvFile` | parse_ywe_wallets.py:57-81 | what is written is the six-name header, then `AllRows(wallets)`, one row per card |
| `ParseWallet.ItemStep` | parse_ywe_wallets.py:91-106 | an inner archive yields a card iff its document is an object holding all five keys; it is skipped iff `/pass.json` is missing or the object lacks a key; every other case is a fatal error |
| `ParseWallet.YieldedCardMatchesDocument` | parse_ywe_wallets.py:96-104 | a yielded card holds the document's values for `barcodes`, `serialNumber`, `passTypeIdentifier`, `organizationName`, `description` |
| `ParseWallet.CardFromPassDocument` | parse_ywe_wallets.py:96-104 | any document holding a card's five fields under the five keys, whatever else it holds, yields exactly that card |
| `ParseWallet.ParseNestedZipFiles` | parse_ywe_wallets.py:88-108 | the loop returns exactly `ExtractAll(items)`, and on success at most one card per inner archive |
| `ParseWallet.ExtractAppend` | parse_ywe_wallets.py:89-108 | extracting `p + q` fails with `p`'s error if `p` fails, else with `q`'s error, else returns `p`'s cards followed by `q`'s |
| `ParseWallet.FailurePersists` | parse_ywe_wallets.py:90-106 | once an error escapes, the inner archives after it change nothing |
| `ParseWallet.ExtractSucceedsIff` | parse_ywe_wallets.py:90-106 | extraction succeeds iff no inner archive raises an uncaught error |
| `ParseWallet.ExtractFailsAtFirstFatal` | parse_ywe_wallets.py:90-106 | if inner archive i is the first to raise, extraction fails with its error |
| `ParseWallet.ExtractFailureHasCause` | parse_ywe_wallets.py:90-106 | a failed extraction names the first inner archive that raised, and the error is that archive's error |
| `ParseWallet.ExtractIsSubsequence` | parse_ywe_wallets.py:89-108 | the cards are the in-order subsequence of inner archives that yield one: strictly increasing positions map to the cards, and every other position was skipped |
| `ParseWallet.ExtractCountBound` | parse_ywe_wallets.py:89-108 | there are never more cards than inner archives |
| `ParseWallet.SkipIsInvisible` | parse_ywe_wallets.py:105-106 | a skipped inner archive can be removed from anywhere in the list without changing the outcome |
| `ParseWallet.OneValidOneMissing` | parse_ywe_wallets.py:89-108 | a complete document followed by an archive without `/pass.json` gives exactly one card, the complete one |
| `ParseWallet.ParseWallet` | parse_ywe_wallets.py:87-117 | a corrupt wallet fails with `BadZipFile`; otherwise the result is the loop's over the inner archives, and a wallet with no inner archives gives no cards |

## Left out

- Report.BarcodesAsString: barcode field values must be strings, numbers (integers), booleans or null. For a list or dictionary value the source prints Python's `repr`, which is not modelled, so the precondition excludes it.
- Report.BarcodesText: inherits that exclusion through `Renderable`; a card with a barcode whose `altText`, `format`, `message` or `messageEncoding` is a list or dictionary is outside its precondition.
- Report.WalletCsvRows: inherits that exclusion through `Renderable`; a card with a barcode whose `altText`, `format`, `message` or `messageEncoding` is a list or dictionary is outside its precondition.
- Report.CsvRows: inherits that exclusion through `Renderable`; a card with a barcode whose `altText`, `format`, `message` or `messageEncoding` is a list or dictionary is outside its precondition.
- Report.ToCsvFile: inherits that exclusion through `Renderable`; a card with a barcode whose `altText`, `format`, `message` or `messageEncoding` is a list or dictionary is outside its precondition.
- Report.CardsUpToSize: inherits that exclusion through `Renderable`; a card with a barcode whose `altText`, `format`, `message` or `messageEncoding` is a list or dictionary is outside its precondition.
- Report.AllRowsCount: inherits that exclusion through `Renderable`; a card with a barcode whose `altText`, `format`, `message` or `messageEncoding` is a list or dictionary is outside its precondition.
- Report.AllRowsAt: inherits that exclusion through `Renderable`; a card with a barcode whose `altText`, `format`, `message` or `messageEncoding` is a list or dictionary is outside its precondition.
- JSON numbers are integers only; fractions and exponents, and Python's `str()` of a float, are not modelled.
- Opening and extracting zip archives, `tempfile.TemporaryDirectory` and its cleanup, and listing the extracted directory (lines 91, 110-116). These are library and file-system calls. Their outcomes are the inputs `WalletArchive` and `InnerArchive`, and the listing order is the order of that sequence.
- UTF-8 (BOM-tolerant) decoding and `json.loads` of `pass.json` (lines 94-95). The decoded document is an input; a decoding failure is the `UndecodablePassJson` case. Duplicate JSON keys are not modelled.
- ParseWallet.ItemStep: a fatal error carries one of three labels, not the Python exception class. Opening failures of an inner file, a directory included, are all `BadZipFile`. Extraction and reading failures of `/pass.json` (encryption, CRC mismatch, bad text) are all `UndecodableDocument`.
- `Report._to_json` and `to_json_file` (lines 24-45). These are `json.dumps` with sorted keys and indentation, a library call.
- `csv.writer` quoting, and the `utf-8-sig` byte-order mark on output (lines 74-75, 81). These are library and encoding behaviour. The rows keep the card's JSON values as they are; their conversion to CSV text is not modelled.
- The `try`/`except Exception: print` around the file writes, and the "Creating report" messages (lines 40-45, 73-84). These are I/O error handling and console output.
- Default file names from `datetime.now()` (lines 38, 58). These are a clock value.
- The `__main__` block: the `.ywe` glob and building the wallet dictionary (lines 120-129). This is command-line discovery.
