/** The entry store's records: an append-only log of captured utterances. */
module Entries {

  /** `state.maxEntries`: the daily capacity of the store. */
  const MAX_ENTRIES: nat := 6

  /** The tag a stored entry carries. `You` is `storeEntry`'s default tag,
      which no caller in the conversation logic uses. */
  datatype EntryType = Login | Entry | Answer | You

  /** An ISO-8601 timestamp string; the clock that produces it is not modelled. */
  type Timestamp = string

  datatype LogEntry = LogEntry(text: string, kind: EntryType, time: Timestamp)

  /** The log after `storeEntry` pushes `e`. */
  function Store(entries: seq<LogEntry>, e: LogEntry): (r: seq<LogEntry>)
    ensures |r| == |entries| + 1
    ensures r[..|entries|] == entries
    ensures r[|entries|] == e
  {
    entries + [e]
  }

  /** `entries.map((entry) => entry.text)`. */
  function Texts(entries: seq<LogEntry>): (ts: seq<string>)
    ensures |ts| == |entries|
    ensures forall i :: 0 <= i < |entries| ==> ts[i] == entries[i].text
  {
    seq(|entries|, i requires 0 <= i < |entries| => entries[i].text)
  }

  lemma TextsStore(entries: seq<LogEntry>, e: LogEntry)
    ensures Texts(Store(entries, e)) == Texts(entries) + [e.text]
  {
  }

  /** `entries.map((entry) => entry.type)`. */
  function Kinds(entries: seq<LogEntry>): (ks: seq<EntryType>)
    ensures |ks| == |entries|
    ensures forall i :: 0 <= i < |entries| ==> ks[i] == entries[i].kind
  {
    seq(|entries|, i requires 0 <= i < |entries| => entries[i].kind)
  }
}
