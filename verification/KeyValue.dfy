/** Commands of the key-value store and their meaning on a store. */
module KeyValue {
  import Text

  type Store = map<string, string>

  datatype Command =
    | Set(key: string, value: string)
    | Del(keys: seq<string>)

  const OK_REPLY: string := "+OK" + Text.SEPARATOR
  const ERROR_REPLY: string := "-ERROR" + Text.SEPARATOR

  function KeySet(keys: seq<string>): set<string> {
    set k | k in keys
  }

  /** The store after a command. */
  function Apply(c: Command, st: Store): Store {
    match c
    case Set(k, v) => st[k := v]
    case Del(ks) => st - KeySet(ks)
  }

  /** How many distinct listed keys a store holds. */
  function Present(ks: seq<string>, st: Store): nat {
    |KeySet(ks) * st.Keys|
  }

  /** The reply to a command executed on a store. */
  function Reply(c: Command, st: Store): (r: string)
    ensures r != ""
  {
    match c
    case Set(_, _) => OK_REPLY
    case Del(ks) =>
      var n := Present(ks, st);
      if n == 0 then ERROR_REPLY else ":" + Text.Decimal(n) + Text.SEPARATOR
  }

  /** The texts that clients get. The count is that of the distinct listed keys that the store holds. */
  lemma ReplyText(c: Command, st: Store)
    ensures ERROR_REPLY == "-ERROR\r\n"
    ensures c.Set? ==> Reply(c, st) == "+OK\r\n"
    ensures c.Del? ==>
              var n := |set k | k in c.keys && k in st|;
              Reply(c, st) == if n == 0 then "-ERROR\r\n" else ":" + Text.Decimal(n) + "\r\n"
    ensures c.Del? ==> (|set k | k in c.keys && k in st| == 0 <==> forall k :: k in c.keys ==> k !in st)
  {
    if c.Del? {
      var found := set k | k in c.keys && k in st;
      assert KeySet(c.keys) * st.Keys == found;
      if k :| k in c.keys && k in st {
        assert k in found;
      }
    }
  }
}
