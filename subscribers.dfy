/** The subscriber registry as a sequence, and what one broadcast over it
    emits. */
module Subscribers {
  import opened Telemetry

  /** Position of the first entry equal to `s`, or -1 when there is none
      (the lookup that list removal performs). */
  function IndexOf(xs: seq<Subscriber>, s: Subscriber): (i: int)
    ensures -1 <= i < |xs|
    ensures i == -1 <==> s !in xs
    ensures 0 <= i ==> xs[i] == s && s !in xs[..i]
  {
    if xs == [] then -1
    else if xs[0] == s then 0
    else
      var j := IndexOf(xs[1..], s);
      assert xs[1..][..if j < 0 then 0 else j] == xs[1..if j < 0 then 1 else j + 1];
      if j < 0 then -1 else j + 1
  }

  /** The registry after removing the first entry equal to `s`; unchanged
      when `s` is absent. */
  function RemoveFirst(xs: seq<Subscriber>, s: Subscriber): (r: seq<Subscriber>)
    ensures |r| == if s in xs then |xs| - 1 else |xs|
    ensures multiset(r) == multiset(xs) - multiset{s}
  {
    if xs == [] then []
    else if xs[0] == s then
      assert xs == [xs[0]] + xs[1..];
      xs[1..]
    else
      assert xs == [xs[0]] + xs[1..];
      [xs[0]] + RemoveFirst(xs[1..], s)
  }

  /** Removing an absent subscriber leaves the registry as it was. */
  lemma {:induction false} RemoveFirstAbsent(xs: seq<Subscriber>, s: Subscriber)
    requires s !in xs
    ensures RemoveFirst(xs, s) == xs
  {
    if xs != [] {
      RemoveFirstAbsent(xs[1..], s);
    }
  }

  /** Removing a present subscriber cuts out exactly its first occurrence and
      keeps every other entry in its relative order. */
  lemma {:induction false} RemoveFirstCutsFirstOccurrence(xs: seq<Subscriber>, s: Subscriber)
    requires s in xs
    ensures var i := IndexOf(xs, s);
            0 <= i && RemoveFirst(xs, s) == xs[..i] + xs[i + 1..]
  {
    if xs[0] != s {
      var t := xs[1..];
      RemoveFirstCutsFirstOccurrence(t, s);
      var j := IndexOf(t, s);
      ConsCut(xs, j);
    }
  }

  /** Cutting position j + 1 out of a list is cutting position j out of its
      tail and putting the head back. */
  lemma ConsCut(xs: seq<Subscriber>, j: nat)
    requires j + 1 < |xs|
    ensures [xs[0]] + (xs[1..][..j] + xs[1..][j + 1..]) == xs[..j + 1] + xs[j + 2..]
  {
    assert xs[1..][..j] == xs[1..j + 1] && xs[1..][j + 1..] == xs[j + 2..];
    assert [xs[0]] + xs[1..j + 1] == xs[..j + 1];
  }

  /** A subscriber registered at most once is gone after one removal, so a
      broadcast over the remaining registry never reaches it. */
  lemma RemoveFirstOfSingleEntry(xs: seq<Subscriber>, s: Subscriber, c: Callback)
    requires multiset(xs)[s] <= 1
    ensures s !in RemoveFirst(xs, s)
    ensures forall e :: e in Fanout(RemoveFirst(xs, s), c) ==> e.subscriber != s
  {
    var r := RemoveFirst(xs, s);
    assert multiset(r)[s] == 0;
    forall e | e in Fanout(r, c) ensures e.subscriber != s {
      FanoutOnlyRegistered(r, c, e);
    }
  }

  /** A subscriber registered two or more times is still registered after one
      removal. */
  lemma RemoveFirstKeepsDuplicate(xs: seq<Subscriber>, s: Subscriber)
    requires multiset(xs)[s] >= 2
    ensures s in RemoveFirst(xs, s)
  {
    assert multiset(RemoveFirst(xs, s))[s] >= 1;
  }

  /** The events of one broadcast: callback `c` on every entry of `xs`, one
      event per entry, in registry order. */
  function Fanout(xs: seq<Subscriber>, c: Callback): (t: seq<Event>)
    ensures |t| == |xs|
    ensures forall i :: 0 <= i < |xs| ==> t[i] == Event(xs[i], c)
  {
    if xs == [] then [] else [Event(xs[0], c)] + Fanout(xs[1..], c)
  }

  /** A subscriber registered k times receives the broadcast k times, and a
      subscriber that is not registered receives nothing. */
  lemma {:induction false} FanoutCountsEntries(xs: seq<Subscriber>, c: Callback, s: Subscriber)
    ensures multiset(Fanout(xs, c))[Event(s, c)] == multiset(xs)[s]
  {
    if xs != [] {
      FanoutCountsEntries(xs[1..], c, s);
      assert xs == [xs[0]] + xs[1..];
      assert Fanout(xs, c) == [Event(xs[0], c)] + Fanout(xs[1..], c);
    }
  }

  /** Every event of a broadcast carries the broadcast callback and goes to a
      registered subscriber. */
  lemma FanoutOnlyRegistered(xs: seq<Subscriber>, c: Callback, e: Event)
    requires e in Fanout(xs, c)
    ensures e.callback == c && e.subscriber in xs
  {
    var t := Fanout(xs, c);
    var i :| 0 <= i < |t| && t[i] == e;
  }

  /** Registering appends one receiver at the end of the broadcast. */
  lemma FanoutAppend(xs: seq<Subscriber>, s: Subscriber, c: Callback)
    ensures Fanout(xs + [s], c) == Fanout(xs, c) + [Event(s, c)]
  {
    var l, r := Fanout(xs + [s], c), Fanout(xs, c) + [Event(s, c)];
    assert |l| == |r|;
    forall i | 0 <= i < |l| ensures l[i] == r[i] {
      assert (xs + [s])[i] == if i < |xs| then xs[i] else s;
    }
  }
}
