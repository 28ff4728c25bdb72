/**
 * The `Card` record (one extracted pass) and the `Wallets` report input.
 *
 * The Python dataclass annotates its fields as `list[dict[str, str]]` and
 * `str`, but nothing enforces those annotations: a card holds whatever JSON
 * values its `pass.json` carried. The fields are therefore `Json` here.
 */
module Cards {
  import opened JsonValue

  datatype Card = Card(
    barcodes: Json,
    serialNumber: Json,
    passTypeIdentifier: Json,
    organizationName: Json,
    description: Json)

  /**
   * One entry of the `Wallets` dictionary (wallet name -> its cards). The
   * dictionary itself is the sequence of its `items()`, in insertion order.
   */
  datatype Wallet = Wallet(name: string, cards: seq<Card>)
}
