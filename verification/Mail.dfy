/** The values the stages exchange: what a provider delivers, what parsing makes of it. */
module Mail {
  import opened Text

  newtype byte = b: int | 0 <= b < 256

  type Bytes = seq<byte>

  /** provider.RawMessage. Dates are seconds since the Unix epoch. */
  datatype RawMessage = RawMessage(
    id: string, threadId: string, raw: Bytes, internalDate: int, labels: seq<string>)

  datatype Attachment = Attachment(filename: string, content: Bytes)

  /** model.Message, with addresses already reduced to their addr-specs. */
  datatype Message = Message(
    id: string, account: string, raw: Bytes, subject: string,
    from: seq<string>, recipients: seq<string>, headers: map<string, seq<string>>,
    labels: seq<string>, date: int, attachments: seq<Attachment>)

  /** time.Time{}.Unix(): the date of a message that carries none. */
  const ZERO_TIME: int := -62135596800

  /** The lowercased domain of an addr-spec, "" when it has none. */
  function AddressDomain(address: string): string {
    var at := LastIndexOf(address, '@');
    if at < 0 || at == |address| - 1 then "" else ToLower(TrimSpace(address[at + 1..]))
  }

  function FromDomains(addresses: seq<string>): seq<string> {
    if addresses == [] then []
    else
      var d := AddressDomain(addresses[0]);
      (if d == "" then [] else [d]) + FromDomains(addresses[1..])
  }

  /** Case-insensitive header lookup; header names are stored lowercased. */
  function HeaderValues(msg: Message, name: string): seq<string> {
    var key := ToLower(name);
    if key in msg.headers then msg.headers[key] else []
  }
}
