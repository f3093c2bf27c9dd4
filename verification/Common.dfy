/** Small shared vocabulary: optional values, identifiers, byte strings, and
    the three things that can happen to one HTTP call between nodes. */
module Common {

  datatype Option<+T> = None | Some(value: T)

  // Public keys, message ids, group ids and client ids are all opaque strings.
  type Id = string

  type Byte = b: int | 0 <= b < 256

  // std::string holds bytes.
  type Text = seq<Byte>

  /** One POST: the request never arrived; the peer ran its handler but the reply
      was lost; or the reply came back. */
  datatype Call = Lost | ReplyLost | Answered

  function Get<K, V>(m: map<K, V>, k: K): Option<V> {
    if k in m then Some(m[k]) else None
  }

  function Last<T>(s: seq<T>): T
    requires |s| > 0
  {
    s[|s| - 1]
  }

  function Front<T>(s: seq<T>): (f: seq<T>)
    requires |s| > 0
    ensures |f| == |s| - 1
  {
    s[..|s| - 1]
  }
}
