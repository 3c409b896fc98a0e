// src/utils/xdrCache.ts: decoding of base64 XDR strings with a bounded cache that
// evicts the least recently used entry.
module XdrCache {
  import opened Wrappers
  import opened OrderedSets

  const MAX_XDR_STRING_LENGTH := 65_536

  datatype XdrError = InvalidEncoding | UndecodableXdr

  predicate IsBase64(c: char) {
    'A' <= c <= 'Z' || 'a' <= c <= 'z' || '0' <= c <= '9' || c in ['+', '/', '-', '_']
  }

  // At least four base64 characters, then at most two padding characters.
  predicate IsValidXdr(s: string) {
    0 < |s| <= MAX_XDR_STRING_LENGTH && (Padded(s, |s|) || Padded(s, |s| - 1) || Padded(s, |s| - 2))
  }

  predicate Padded(s: string, n: int) {
    && 4 <= n <= |s|
    && (forall i :: 0 <= i < n ==> IsBase64(s[i]))
    && (forall i :: n <= i < |s| ==> s[i] == '=')
  }

  ghost predicate AllBase64(s: string) {
    forall i :: 0 <= i < |s| ==> IsBase64(s[i])
  }

  ghost predicate PaddedBy(s: string, core: string) {
    |core| >= 4 && AllBase64(core) && (s == core || s == core + "=" || s == core + "==")
  }

  // Valid strings are four or more base64 characters, at most two padding characters,
  // and no longer than the limit.
  lemma ValidXdrIff(s: string)
    ensures IsValidXdr(s) <==> |s| <= MAX_XDR_STRING_LENGTH && exists core :: PaddedBy(s, core)
  {
    if IsValidXdr(s) {
      var n := if Padded(s, |s|) then |s| else if Padded(s, |s| - 1) then |s| - 1 else |s| - 2;
      assert s == s[..n] + s[n..];
      assert s[n..] == "" || s[n..] == "=" || s[n..] == "==";
      assert s[..n] + "" == s[..n];
      assert PaddedBy(s, s[..n]);
    }
    forall core | PaddedBy(s, core)
      ensures Padded(s, |core|) && |s| - 2 <= |core| <= |s|
    {
      assert forall i :: 0 <= i < |core| ==> s[i] == core[i];
    }
  }

  // The decoder without a cache; decode is the library's, None where it throws.
  function Uncached<V>(decode: string -> Option<V>, input: string): Result<V, XdrError> {
    if !IsValidXdr(input) then Err(InvalidEncoding)
    else
      match decode(input)
      case None => Err(UndecodableXdr)
      case Some(v) => Ok(v)
  }

  // ---------- What the cache should hold ----------

  // The decodable inputs of a call history, each at its last use.
  function Recent<V>(decode: string -> Option<V>, h: seq<string>): seq<string> {
    if h == [] then []
    else if Uncached(decode, h[0]).Ok? && h[0] !in h[1..] then [h[0]] + Recent(decode, h[1..])
    else Recent(decode, h[1..])
  }

  function LastOf<T>(s: seq<T>, n: nat): seq<T> {
    if |s| <= n then s else s[|s| - n..]
  }

  // Recent lists every decodable input once, ordered by last use: of two, the
  // later one is the one still to come from some point of the history on.
  lemma {:induction false} RecentOrdersByLastUse<V>(decode: string -> Option<V>, h: seq<string>)
    ensures NoDuplicates(Recent(decode, h))
    ensures forall x :: x in Recent(decode, h) <==> x in h && Uncached(decode, x).Ok?
    ensures forall i, j :: 0 <= i < j < |Recent(decode, h)| ==>
              UsedBefore(h, Recent(decode, h)[i], Recent(decode, h)[j])
  {
    if h != [] {
      var rest := h[1..];
      var r := Recent(decode, rest);
      RecentOrdersByLastUse(decode, rest);
      assert forall x :: x in h <==> x == h[0] || x in rest;
      forall x, y | UsedBefore(rest, x, y)
        ensures UsedBefore(h, x, y)
      {
        var p :| 0 <= p <= |rest| && x !in rest[p..] && y in rest[p..];
        assert h[p + 1..] == rest[p..];
      }
      forall y | y in r && h[0] !in rest
        ensures UsedBefore(h, h[0], y)
      {
        assert h[1..] == rest;
      }
      assert forall j :: 0 <= j < |r| ==> r[j] in r;
    }
  }

  ghost predicate UsedBefore(h: seq<string>, x: string, y: string) {
    exists p :: 0 <= p <= |h| && x !in h[p..] && y in h[p..]
  }

  // A further use moves a decodable input to the end; a failing one changes nothing.
  lemma {:induction false} RecentSnoc<V>(decode: string -> Option<V>, h: seq<string>, x: string)
    ensures Recent(decode, h + [x]) ==
            if Uncached(decode, x).Ok? then Remove(Recent(decode, h), x) + [x] else Recent(decode, h)
  {
    if h != [] {
      var rest := h[1..];
      RecentSnoc(decode, rest, x);
      assert (h + [x])[1..] == rest + [x];
      assert h[0] in rest + [x] <==> h[0] in rest || h[0] == x;
      if Uncached(decode, h[0]).Ok? && h[0] == x && h[0] !in rest {
        RecentOrdersByLastUse(decode, rest);
        RemoveAbsent(Recent(decode, rest), x);
      }
    }
  }

  lemma LastOfConcat(a: seq<string>, b: seq<string>, n: nat)
    requires |b| == n || (a == [] && |b| <= n)
    ensures LastOf(a + b, n) == b
  {
  }

  lemma Regroup(a: seq<string>, b: seq<string>, c: seq<string>)
    ensures a + (b + c) == (a + b) + c
  {
  }

  // Splits off what the cache keeps.
  lemma SplitLast(r: seq<string>, n: nat) returns (older: seq<string>, kept: seq<string>)
    ensures r == older + kept && kept == LastOf(r, n)
    ensures |kept| == n || (older == [] && |kept| < n)
  {
    kept := LastOf(r, n);
    older := r[..|r| - |kept|];
  }

  lemma DistinctHalves(a: seq<string>, b: seq<string>)
    requires NoDuplicates(a + b)
    ensures NoDuplicates(b) && forall x :: x in b ==> x !in a
  {
    assert forall i :: 0 <= i < |a| ==> (a + b)[i] == a[i];
    assert forall i :: 0 <= i < |b| ==> (a + b)[|a| + i] == b[i];
  }

  // Moving a cached key to the end keeps the cache the tail of the recent keys.
  lemma HitKeepsTail(r: seq<string>, n: nat, x: string)
    requires NoDuplicates(r) && x in LastOf(r, n)
    ensures LastOf(Remove(r, x) + [x], n) == Remove(LastOf(r, n), x) + [x]
  {
    var older, kept := SplitLast(r, n);
    DistinctHalves(older, kept);
    RemoveKeepsDistinct(kept, x);
    RemoveConcat(older, kept, x);
    RemoveAbsent(older, x);
    Regroup(older, Remove(kept, x), [x]);
    LastOfConcat(older, Remove(kept, x) + [x], n);
  }

  // Adding a key, after dropping the first one of a full cache, does so as well.
  lemma MissKeepsTail(r: seq<string>, n: nat, x: string)
    requires n > 0 && x !in LastOf(r, n)
    ensures LastOf(Remove(r, x) + [x], n) == (if |LastOf(r, n)| >= n then LastOf(r, n)[1..] else LastOf(r, n)) + [x]
  {
    var older, kept := SplitLast(r, n);
    RemoveConcat(older, kept, x);
    RemoveAbsent(kept, x);
    var rest := Remove(older, x);
    if |kept| == n {
      assert kept == [kept[0]] + kept[1..];
      Regroup(rest, [kept[0]], kept[1..]);
      Regroup(rest + [kept[0]], kept[1..], [x]);
      LastOfConcat(rest + [kept[0]], kept[1..] + [x], n);
    } else {
      LastOfConcat([], kept + [x], n);
      assert [] + (kept + [x]) == kept + [x];
    }
  }

  // An insertion-ordered Map: keys in insertion order, and the values.
  class XdrCache<V> {
    const capacity: nat
    const decode: string -> Option<V>
    var keys: seq<string>
    var values: map<string, V>
    ghost var history: seq<string>  // the calls since the last clear

    // The cache holds the most recently used decodable inputs, in last-use order,
    // each with its true decoding.
    ghost predicate Valid()
      reads this
    {
      && capacity > 0
      && keys == LastOf(Recent(decode, history), capacity)
      && (forall k :: k in keys <==> k in values)
      && (forall k :: k in keys ==> Uncached(decode, k) == Ok(values[k]))
    }

    constructor (capacity: nat, decode: string -> Option<V>)
      requires capacity > 0
      ensures Valid() && history == [] && this.capacity == capacity && this.decode == decode
    {
      this.capacity, this.decode := capacity, decode;
      keys, values, history := [], map[], [];
    }

    method Decode(input: string) returns (r: Result<V, XdrError>)
      requires Valid()
      modifies this
      ensures Valid() && history == old(history) + [input]
      ensures r == Uncached(decode, input)
      ensures |keys| <= capacity
      ensures r.Err? ==> keys == old(keys) && values == old(values)
    {
      ghost var recent := Recent(decode, history);
      RecentSnoc(decode, history, input);
      RecentOrdersByLastUse(decode, history);
      history := history + [input];
      if !IsValidXdr(input) {
        return Err(InvalidEncoding);
      }
      if input in keys {
        HitKeepsTail(recent, capacity, input);
        var cached := values[input];
        keys := Remove(keys, input);
        keys := keys + [input];
        return Ok(cached);
      }
      var decoded := decode(input);
      if decoded.None? {
        return Err(UndecodableXdr);
      }
      MissKeepsTail(recent, capacity, input);
      if |keys| >= capacity {
        DropFirst(keys);
        values := values - {keys[0]};
        keys := keys[1..];
      }
      keys := keys + [input];
      values := values[input := decoded.value];
      return Ok(decoded.value);
    }

    method Clear()
      requires Valid()
      modifies this
      ensures Valid() && history == [] && keys == []
    {
      keys, values, history := [], map[], [];
    }
  }

  lemma DropFirst(keys: seq<string>)
    requires keys != [] && NoDuplicates(keys)
    ensures forall k :: k in keys[1..] <==> k in keys && k != keys[0]
  {
    assert keys == [keys[0]] + keys[1..];
  }
}
