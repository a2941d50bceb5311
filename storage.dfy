/**
 * The browser services the scripts persist to and export through: the
 * process-wide key/value text store (localStorage), a JSON text encoding of a
 * value, and the file-download hand-off.
 */
module Storage {
  import opened Js

  /** Fixed keys of the durable store. */
  const LegacyKey := "inventoryData"
  const BackupKey := "inventory-backup"
  const UserIdKey := "userId"

  /** The key under which the image of reference `ref` is stored. */
  function ImageKey(ref: string): string {
    "image-" + ref
  }

  /**
   * localStorage: string keys to string values. While `rejectsWrites` holds (the
   * quota is exhausted) every setItem throws and leaves the store as it was.
   */
  class LocalStorage {
    var items: map<string, string>
    var rejectsWrites: bool

    constructor (items: map<string, string>, rejectsWrites: bool)
      ensures this.items == items && this.rejectsWrites == rejectsWrites
    {
      this.items := items;
      this.rejectsWrites := rejectsWrites;
    }

    /** getItem(key); None stands for null. */
    function GetItem(key: string): Option<string>
      reads this
    {
      if key in items then Some(items[key]) else None
    }

    /** setItem(key, value); `ok` is false where the host throws. */
    method SetItem(key: string, value: string) returns (ok: bool)
      modifies this
      ensures ok == !old(rejectsWrites) && rejectsWrites == old(rejectsWrites)
      ensures items == if ok then old(items)[key := value] else old(items)
    {
      ok := !rejectsWrites;
      if ok {
        items := items[key := value];
      }
    }
  }

  /** `getItem(key)` followed by a truthiness test: null and "" both read as absent. */
  function Present(stored: Option<string>): Option<string> {
    match stored
    case Some(s) => if s == "" then None else Some(s)
    case None => None
  }

  /**
   * JSON.stringify and JSON.parse at one type: `decode` yields None where the text
   * does not parse, or does not have the shape the reader expects.
   */
  datatype Codec<!T> = Codec(encode: T -> string, decode: string -> Option<T>)

  /** The encoding of `x` parses back to `x` and is not the empty (falsy) text. */
  predicate RoundTrips<T(==)>(codec: Codec<T>, x: T) {
    codec.decode(codec.encode(x)) == Some(x) && codec.encode(x) != ""
  }

  datatype Download = Download(content: string, filename: string, mime: string)

  /** The host's file-save action: it records every file it is handed. */
  class DownloadSink {
    var received: seq<Download>

    constructor ()
      ensures received == []
    {
      received := [];
    }

    method Save(content: string, filename: string, mime: string)
      modifies this
      ensures received == old(received) + [Download(content, filename, mime)]
    {
      received := received + [Download(content, filename, mime)];
    }
  }
}
