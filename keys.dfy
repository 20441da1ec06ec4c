/**
 * Key discovery: the cursor-paged scan of the key-value store and the
 * rewriting of each matching key into a queue name (src/bull.js, the
 * do-while loops and the `key.replace(...)` calls of getBullQueues and
 * refresh).
 */
module Keys {
  import opened Outcomes

  type Key = string

  /** What the store answers to one `scan(cursor, 'MATCH', pattern)` call:
      the next cursor with a batch of keys, or a rejected call. */
  datatype Reply = Batch(cursor: string, keys: seq<Key>) | Down

  /** The replies the store gives to successive scan calls, in call order. */
  type Store = seq<Reply>

  /** A reply after which the scan loop makes no further call. */
  predicate Stops(reply: Reply) {
    reply.Down? || reply.cursor == "0"
  }

  /** The store eventually ends the iteration (cursor "0") or fails. */
  predicate Completes(store: Store) {
    |store| > 0 && (Stops(store[0]) || Completes(store[1..]))
  }

  /** Index of the reply at which the scan loop stops. */
  function FirstStop(store: Store): (n: nat)
    requires Completes(store)
    ensures n < |store| && Stops(store[n])
    ensures forall j :: 0 <= j < n ==> !Stops(store[j])
  {
    if Stops(store[0]) then 0
    else
      var n := 1 + FirstStop(store[1..]);
      assert forall j :: 1 <= j < n ==> store[j] == store[1..][j - 1];
      n
  }

  /** The keys of the batches, concatenated in reply order. */
  function Flatten(replies: seq<Reply>): seq<Key> {
    if replies == [] then []
    else
      var last := replies[|replies| - 1];
      Flatten(replies[..|replies| - 1]) + (if last.Batch? then last.keys else [])
  }

  /** Outcome of a whole scan: every batch up to the one carrying cursor
      "0", concatenated, duplicates kept; or the store's failure. */
  function Scan(store: Store): Result<seq<Key>>
    requires Completes(store)
  {
    var n := FirstStop(store);
    if store[n].Down? then Err(StoreUnavailable) else Ok(Flatten(store[..n + 1]))
  }

  /** The do-while cursor loop. `requested` lists the cursor passed to each
      scan call: it starts at "0", each later one is the cursor the previous
      reply returned, and the loop ends at the first reply whose cursor is
      "0" (or at the first failed call). */
  method ScanKeys(store: Store) returns (r: Result<seq<Key>>, requested: seq<string>)
    requires Completes(store)
    ensures r == Scan(store)
    ensures |requested| == FirstStop(store) + 1 && requested[0] == "0"
    ensures forall i :: 0 < i < |requested| ==>
              store[i - 1].Batch? && requested[i] == store[i - 1].cursor && requested[i] != "0"
  {
    var cursor := "0";
    var keys: seq<Key> := [];
    var i := 0;
    requested := [];
    while true
      invariant i <= FirstStop(store)
      invariant |requested| == i
      invariant keys == Flatten(store[..i])
      invariant i == 0 ==> cursor == "0"
      invariant i > 0 ==> store[i - 1].Batch? && cursor == store[i - 1].cursor
      invariant i > 0 ==> requested[0] == "0"
      invariant forall k :: 0 < k < i ==>
                  store[k - 1].Batch? && requested[k] == store[k - 1].cursor && requested[k] != "0"
      decreases FirstStop(store) - i
    {
      requested := requested + [cursor];
      var reply := store[i];
      if reply.Down? {
        r := Err(StoreUnavailable);
        return;
      }
      cursor := reply.cursor;
      assert store[..i + 1][..i] == store[..i];
      keys := keys + reply.keys;
      i := i + 1;
      if cursor == "0" {
        break;
      }
    }
    r := Ok(keys);
  }

  /** The characters JavaScript's `.` does not match (no `s` flag). */
  predicate LineTerminator(c: char) {
    c == '\n' || c == '\r' || c == '\U{2028}' || c == '\U{2029}'
  }

  /** `m` and `s` are the capture group and the last segment of a match of
      `^<prefix>:(.+):[^:]+$` on `key`. */
  predicate Matches(prefix: string, key: Key, m: string, s: string) {
    key == prefix + ":" + m + ":" + s
    && |m| > 0 && (forall i :: 0 <= i < |m| ==> !LineTerminator(m[i]))
    && |s| > 0 && ':' !in s
  }

  /** Position of the last colon. */
  function LastColon(s: string): (r: Option<nat>)
    ensures r.Some? ==> r.value < |s| && s[r.value] == ':' && ':' !in s[r.value + 1..]
    ensures r.None? ==> ':' !in s
  {
    if s == [] then None
    else if s[|s| - 1] == ':' then Some(|s| - 1)
    else
      var r := LastColon(s[..|s| - 1]);
      assert s == s[..|s| - 1] + [s[|s| - 1]];
      assert r.Some? ==> s[r.value + 1..] == s[..|s| - 1][r.value + 1..] + [s[|s| - 1]];
      r
  }

  /** `key.replace(new RegExp(`^${prefix}:(.+):[^:]+$`), '$1')`: the greedy
      `(.+)` ends at the last colon, which must leave a non-empty capture
      free of line terminators and a non-empty tail. A key that does not
      match is returned unchanged. */
  function Extract(prefix: string, key: Key): string {
    var head := prefix + ":";
    if |head| <= |key| && key[..|head|] == head then
      var rest := key[|head|..];
      match LastColon(rest)
      case Some(c) =>
        if 0 < c < |rest| - 1 && (forall i :: 0 <= i < c ==> !LineTerminator(rest[i]))
        then rest[..c]
        else key
      case None => key
    else key
  }

  /** The queue-name candidates of a scan, one per key, in key order. */
  function ExtractAll(prefix: string, keys: seq<Key>): seq<string> {
    seq(|keys|, i requires 0 <= i < |keys| => Extract(prefix, keys[i]))
  }

  /** A matching key yields its capture group, colons included. */
  lemma {:induction false} ExtractMatched(prefix: string, key: Key, m: string, s: string)
    requires Matches(prefix, key, m, s)
    ensures Extract(prefix, key) == m
  {
    var head := prefix + ":";
    assert key[..|head|] == head;
    var rest := key[|head|..];
    assert rest == m + ":" + s;
    var c := LastColon(rest);
    assert rest[|m|] == ':' && rest[|m| + 1..] == s;
    assert forall j :: |m| < j < |rest| ==> rest[j] == s[j - |m| - 1];
    assert c == Some(|m|);
    assert rest[..|m|] == m;
  }

  /** Whenever extraction rewrites a key, the result is the capture group
      of a match of the pattern. */
  lemma {:induction false} ExtractChanged(prefix: string, key: Key)
    ensures Extract(prefix, key) != key ==> exists s :: Matches(prefix, key, Extract(prefix, key), s)
  {
    var head := prefix + ":";
    if |head| <= |key| && key[..|head|] == head {
      var rest := key[|head|..];
      var c := LastColon(rest);
      if c.Some? && 0 < c.value < |rest| - 1 && (forall i :: 0 <= i < c.value ==> !LineTerminator(rest[i])) {
        var m, s := rest[..c.value], rest[c.value + 1..];
        assert rest == m + [':'] + s;
        assert key == head + rest;
        assert key == prefix + ":" + m + ":" + s;
        assert forall i :: 0 <= i < |m| ==> m[i] == rest[i];
        assert Matches(prefix, key, m, s);
      }
    }
  }

  /** A key that matches the pattern in no way is returned unchanged. */
  lemma {:induction false} ExtractUnmatched(prefix: string, key: Key)
    requires forall m, s :: !Matches(prefix, key, m, s)
    ensures Extract(prefix, key) == key
  {
    ExtractChanged(prefix, key);
  }

  /** The worked examples: a plain key, a name containing a colon (greedy
      capture), and a key whose capture would be empty. */
  lemma {:induction false} ExtractExamples()
    ensures Extract("bull", "bull:orders:id") == "orders"
    ensures Extract("bull", "bull:mail:eu:id") == "mail:eu"
    ensures Extract("bull", "bull::id") == "bull::id"
  {
    ExtractMatched("bull", "bull:orders:id", "orders", "id");
    ExtractMatched("bull", "bull:mail:eu:id", "mail:eu", "id");
  }
}
