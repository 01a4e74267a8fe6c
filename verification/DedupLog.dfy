/**
 The durable de-duplication log, one line per key.  An append that is cut in the middle leaves a
 tail without a line end, and the next line is glued to it and cannot be read.
 */
module DedupLog {
  import opened StreamContracts

  // What follows the last line end: nothing, something unreadable, or a key still readable.
  datatype Tail = NoTail | BrokenTail | WholeTail(key: IdentityKey)

  // How appending one key ends: done, refused with nothing written, cut in the middle (with the
  // text of the key complete or not, by an error or by the end of the process), or done just
  // before the process dies.
  datatype AppendReply = Written | Refused | Torn(whole: bool, died: bool) | DiedAfterWrite

  // The keys of the readable lines, in order, and the tail.
  datatype Log = Log(lines: seq<IdentityKey>, tail: Tail) {
    function Keys(): seq<IdentityKey> {
      lines + if tail.WholeTail? then [tail.key] else []
    }

    function Append(key: IdentityKey): Log {
      Log(if tail.NoTail? then lines + [key] else lines, NoTail)
    }

    function Tear(key: IdentityKey, whole: bool): Log {
      Log(lines, if tail.NoTail? && whole then WholeTail(key) else BrokenTail)
    }

    function After(key: IdentityKey, reply: AppendReply): Log {
      match reply
      case Refused => this
      case Torn(whole, _) => Tear(key, whole)
      case DiedAfterWrite => Append(key)
      case Written => Append(key)
    }
  }

  const EMPTY_LOG := Log([], NoTail)

  function KeySet(log: Log): set<IdentityKey> {
    set key | key in log.Keys()
  }

  /** An append keeps every key readable, its own included, exactly when the log has no tail. */
  lemma AppendKeepsKeysIff(log: Log, key: IdentityKey)
    requires key !in log.Keys()
    ensures (forall k :: k in log.Keys() || k == key ==> k in log.Append(key).Keys()) <==> log.tail.NoTail?
  {
    if log.tail.NoTail? {
      assert log.Append(key).Keys()[|log.lines|] == key;
    } else {
      assert key !in log.Append(key).Keys();
    }
  }
}
