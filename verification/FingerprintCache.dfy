/**
 * The fingerprint cache: an insertion-ordered map of at most sixteen entries. A call looks its
 * key up, and on a miss yields while the hash is computed before it writes, so calls overlap.
 */
module FingerprintCache {
  import opened Prelude

  const CACHE_MAX: nat := 16

  datatype Entry = Entry(key: string, hash: string)

  function Find(entries: seq<Entry>, key: string): Option<string> {
    if entries == [] then None
    else if entries[0].key == key then Some(entries[0].hash)
    else Find(entries[1..], key)
  }

  /** `Map.set`: a present key keeps its place, a new one goes last. */
  function Put(entries: seq<Entry>, key: string, hash: string): seq<Entry> {
    if entries == [] then [Entry(key, hash)]
    else if entries[0].key == key then [Entry(key, hash)] + entries[1..]
    else [entries[0]] + Put(entries[1..], key, hash)
  }

  /** What a call does once its hash is there: drop the oldest entry of a full cache, then write. */
  function Settled(entries: seq<Entry>, key: string, hash: string): seq<Entry> {
    Put(if |entries| >= CACHE_MAX then entries[1..] else entries, key, hash)
  }

  class Cache {
    var entries: seq<Entry>

    constructor ()
      ensures entries == []
    {
      entries := [];
    }

    method Lookup(key: string) returns (cached: Option<string>)
      ensures cached == Find(entries, key)
    {
      cached := None;
      for i := 0 to |entries|
        invariant Find(entries, key) == Find(entries[i..], key)
      {
        assert entries[i..][1..] == entries[i + 1..];
        if entries[i].key == key {
          return Some(entries[i].hash);
        }
      }
    }

    method Settle(key: string, hash: string)
      modifies this
      ensures entries == Settled(old(entries), key, hash)
    {
      if |entries| >= CACHE_MAX {
        entries := entries[1..];
      }
      entries := Put(entries, key, hash);
    }
  }

  // ---- Overlapping calls ----

  /** A call starts, or the hash for one of the waiting calls arrives. */
  datatype Event = Call(key: string) | Arrive(i: nat)

  datatype State = State(entries: seq<Entry>, waiting: seq<string>, returned: seq<Entry>)

  function Step(hash: string -> string, s: State, e: Event): State {
    match e
    case Call(key) =>
      (match Find(s.entries, key)
       case Some(h) => s.(returned := s.returned + [Entry(key, h)])
       case None => s.(waiting := s.waiting + [key]))
    case Arrive(i) =>
      if i < |s.waiting| then
        var key := s.waiting[i];
        State(Settled(s.entries, key, hash(key)), s.waiting[..i] + s.waiting[i + 1..],
          s.returned + [Entry(key, hash(key))])
      else s
  }

  function Run(hash: string -> string, s: State, events: seq<Event>): State
    decreases |events|
  {
    if events == [] then s else Run(hash, Step(hash, s, events[0]), events[1..])
  }

  ghost predicate DistinctKeys(entries: seq<Entry>) {
    forall i, j :: 0 <= i < j < |entries| ==> entries[i].key != entries[j].key
  }

  ghost predicate Truthful(hash: string -> string, entries: seq<Entry>) {
    forall e :: e in entries ==> e.hash == hash(e.key)
  }

  ghost predicate Good(hash: string -> string, s: State) {
    && |s.entries| <= 16 && DistinctKeys(s.entries)
    && Truthful(hash, s.entries) && Truthful(hash, s.returned)
  }

  lemma {:induction false} FindIsEntry(entries: seq<Entry>, key: string)
    ensures
      match Find(entries, key)
      case Some(h) => Entry(key, h) in entries
      case None => forall e :: e in entries ==> e.key != key
  {
    if entries != [] && entries[0].key != key {
      FindIsEntry(entries[1..], key);
      assert entries == [entries[0]] + entries[1..];
    }
  }

  lemma {:induction false} PutKeeps(entries: seq<Entry>, key: string, hash: string)
    ensures |Put(entries, key, hash)| == |entries| + if Find(entries, key).Some? then 0 else 1
    ensures
      forall e ::
        e in Put(entries, key, hash)
        ==> e == Entry(key, hash) || (e in entries && e.key != key) || !DistinctKeys(entries)
    ensures DistinctKeys(entries) ==> DistinctKeys(Put(entries, key, hash))
    ensures Find(Put(entries, key, hash), key) == Some(hash)
  {
    if entries != [] {
      var tail := entries[1..];
      assert entries == [entries[0]] + tail;
      if entries[0].key == key {
        assert ([Entry(key, hash)] + tail)[1..] == tail;
      } else {
        PutKeeps(tail, key, hash);
        var out := Put(tail, key, hash);
        assert ([entries[0]] + out)[1..] == out;
        if DistinctKeys(entries) {
          forall i | 0 <= i < |out|
            ensures out[i].key != entries[0].key
          {
            assert out[i] in out;
          }
        }
      }
    }
  }

  lemma SettledIsGood(hash: string -> string, entries: seq<Entry>, key: string)
    requires |entries| <= CACHE_MAX && DistinctKeys(entries) && Truthful(hash, entries)
    ensures
      var out := Settled(entries, key, hash(key));
      && 0 < |out| <= CACHE_MAX && DistinctKeys(out) && Truthful(hash, out)
      && Find(out, key) == Some(hash(key))
  {
    var kept := if |entries| >= CACHE_MAX then entries[1..] else entries;
    assert DistinctKeys(kept) && forall e :: e in kept ==> e in entries;
    PutKeeps(kept, key, hash(key));
  }

  lemma StepIsGood(hash: string -> string, s: State, e: Event)
    requires Good(hash, s)
    ensures Good(hash, Step(hash, s, e))
  {
    match e
    case Call(key) => FindIsEntry(s.entries, key);
    case Arrive(i) =>
      if i < |s.waiting| {
        SettledIsGood(hash, s.entries, s.waiting[i]);
      }
  }

  /**
   * However calls overlap: the cache never exceeds its bound, holds each key once with its own
   * hash, and every call that has returned got the hash of its own key.
   */
  lemma {:induction false} EveryInterleavingIsGood(hash: string -> string, s: State, events: seq<Event>)
    requires Good(hash, s)
    ensures Good(hash, Run(hash, s, events))
    decreases |events|
  {
    if events != [] {
      StepIsGood(hash, s, events[0]);
      EveryInterleavingIsGood(hash, Step(hash, s, events[0]), events[1..]);
    }
  }

  /** The keys of answered and of waiting calls together. */
  ghost function Outstanding(s: State): multiset<string> {
    Keys(s.returned) + multiset(s.waiting)
  }

  lemma RemoveAt(xs: seq<string>, i: nat)
    requires i < |xs|
    ensures multiset(xs[..i] + xs[i + 1..]) + multiset{xs[i]} == multiset(xs)
  {
    assert xs == xs[..i] + [xs[i]] + xs[i + 1..];
  }

  lemma StepConserves(hash: string -> string, s: State, e: Event)
    ensures Outstanding(Step(hash, s, e)) == Outstanding(s) + (if e.Call? then multiset{e.key} else multiset{})
  {
    match e
    case Call(key) =>
      if Find(s.entries, key).Some? {
        KeysAppend(s.returned, Entry(key, Find(s.entries, key).value));
      }
    case Arrive(i) =>
      if i < |s.waiting| { ArrivalConserves(hash, s, i); }
  }

  lemma ArrivalConserves(hash: string -> string, s: State, i: nat)
    requires i < |s.waiting|
    ensures Outstanding(Step(hash, s, Arrive(i))) == Outstanding(s)
  {
    var next := Step(hash, s, Arrive(i));
    KeysAppend(s.returned, Entry(s.waiting[i], hash(s.waiting[i])));
    RemoveAt(s.waiting, i);
    assert next.waiting == s.waiting[..i] + s.waiting[i + 1..];
    assert Keys(next.returned) == Keys(s.returned) + multiset{s.waiting[i]};
  }

  /** No call is lost or answered twice: those answered and those waiting are those that started. */
  lemma {:induction false} CallsAreConserved(hash: string -> string, s: State, events: seq<Event>)
    ensures Outstanding(Run(hash, s, events)) == Outstanding(s) + Started(events)
    decreases |events|
  {
    if events != [] {
      StepConserves(hash, s, events[0]);
      CallsAreConserved(hash, Step(hash, s, events[0]), events[1..]);
    }
  }

  ghost function Keys(entries: seq<Entry>): multiset<string> {
    if entries == [] then multiset{} else Keys(entries[..|entries| - 1]) + multiset{entries[|entries| - 1].key}
  }

  ghost function Started(events: seq<Event>): multiset<string> {
    if events == [] then multiset{}
    else (if events[0].Call? then multiset{events[0].key} else multiset{}) + Started(events[1..])
  }

  lemma KeysAppend(entries: seq<Entry>, e: Entry)
    ensures Keys(entries + [e]) == Keys(entries) + multiset{e.key}
  {
    assert (entries + [e])[..|entries|] == entries;
  }

  /**
   * Two overlapping calls for one new key, on a full cache, evict two entries for the one they
   * add: the second write finds its key present but still drops the oldest.
   */
  lemma OverlapEvictsTwice(hash: string -> string, s: State, key: string)
    requires Good(hash, s) && |s.entries| == CACHE_MAX && Find(s.entries, key).None? && s.waiting == []
    ensures
      var t := Run(hash, s, [Call(key), Call(key), Arrive(0), Arrive(0)]);
      t.entries == s.entries[2..] + [Entry(key, hash(key))] && |t.entries| == CACHE_MAX - 1
  {
    var h := hash(key);
    FindIsEntry(s.entries, key);
    var one := Settled(s.entries, key, h);
    PutNew(s.entries[1..], key, h);
    assert one == s.entries[1..] + [Entry(key, h)];
    assert one[1..] == s.entries[2..] + [Entry(key, h)];
    PutLast(s.entries[2..], key, h);
    var s1 := Step(hash, s, Call(key));
    assert s1.waiting == [key];
    var s2 := Step(hash, s1, Call(key));
    assert s2.waiting == [key, key];
    var s3 := Step(hash, s2, Arrive(0));
    assert s3.waiting == [key] && s3.entries == one;
    var s4 := Step(hash, s3, Arrive(0));
    var events := [Call(key), Call(key), Arrive(0), Arrive(0)];
    assert events[1..] == [Call(key), Arrive(0), Arrive(0)];
    assert events[1..][1..] == [Arrive(0), Arrive(0)];
    assert events[1..][1..][1..] == [Arrive(0)];
    assert events[1..][1..][1..][1..] == [];
    assert Run(hash, s4, []) == s4;
    assert Run(hash, s3, [Arrive(0)]) == s4;
    assert Run(hash, s2, [Arrive(0), Arrive(0)]) == s4;
    assert Run(hash, s1, [Call(key), Arrive(0), Arrive(0)]) == s4;
  }

  lemma {:induction false} PutNew(entries: seq<Entry>, key: string, hash: string)
    requires forall e :: e in entries ==> e.key != key
    ensures Put(entries, key, hash) == entries + [Entry(key, hash)]
  {
    if entries != [] {
      assert entries == [entries[0]] + entries[1..];
      PutNew(entries[1..], key, hash);
    }
  }

  lemma {:induction false} PutLast(entries: seq<Entry>, key: string, hash: string)
    requires forall e :: e in entries ==> e.key != key
    ensures Put(entries + [Entry(key, hash)], key, hash) == entries + [Entry(key, hash)]
  {
    if entries != [] {
      assert entries == [entries[0]] + entries[1..];
      PutLast(entries[1..], key, hash);
      assert (entries + [Entry(key, hash)])[1..] == entries[1..] + [Entry(key, hash)];
    }
  }

  // ---- Calls one after the other ----

  /** The cache after calls that never overlap, and the keys that were hashed on the way. */
  function Sequential(hash: string -> string, keys: seq<string>): (seq<Entry>, seq<string>) {
    if keys == [] then ([], [])
    else
      var (entries, hashed) := Sequential(hash, keys[..|keys| - 1]);
      var key := keys[|keys| - 1];
      if Find(entries, key).Some? then (entries, hashed)
      else (Settled(entries, key, hash(key)), hashed + [key])
  }

  function Recent(hash: string -> string, hashed: seq<string>): seq<Entry> {
    var from := if |hashed| <= CACHE_MAX then 0 else |hashed| - CACHE_MAX;
    seq(|hashed| - from, i requires 0 <= i < |hashed| - from => Entry(hashed[from + i], hash(hashed[from + i])))
  }

  lemma RecentNext(hash: string -> string, hashed: seq<string>, key: string)
    ensures
      var was := Recent(hash, hashed);
      && |was| <= CACHE_MAX
      && Recent(hash, hashed + [key]) == (if |was| == CACHE_MAX then was[1..] else was) + [Entry(key, hash(key))]
  {}

  /** Without overlap the cache is exactly the last sixteen keys hashed, oldest first. */
  lemma {:induction false} SequentialIsFifo(hash: string -> string, keys: seq<string>)
    ensures Sequential(hash, keys).0 == Recent(hash, Sequential(hash, keys).1)
  {
    if keys != [] {
      var init, key := keys[..|keys| - 1], keys[|keys| - 1];
      SequentialIsFifo(hash, init);
      var (entries, hashed) := Sequential(hash, init);
      if Find(entries, key).None? {
        FindIsEntry(entries, key);
        RecentNext(hash, hashed, key);
        SettleNew(entries, key, hash(key));
      }
    }
  }

  lemma SettleNew(entries: seq<Entry>, key: string, hash: string)
    requires |entries| <= CACHE_MAX && forall e :: e in entries ==> e.key != key
    ensures
      Settled(entries, key, hash) == (if |entries| == CACHE_MAX then entries[1..] else entries) + [Entry(key, hash)]
  {
    PutNew(if |entries| == CACHE_MAX then entries[1..] else entries, key, hash);
  }
}
