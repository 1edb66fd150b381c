/** The address list the etcd resolver keeps from a stream of events: an unordered slice changed in
    place, which must behave as a set. */
module EtcdResolver {
  import opened Text

  datatype Event = Put(key: string) | Delete(key: string)

  // ----- What the list must mean

  function AddressOf(e: Event, prefix: string): string { TrimPrefix(e.key, prefix) }

  /** The event applied to the set of addresses. */
  function SetStep(s: set<string>, e: Event, prefix: string): set<string> {
    if e.Put? then s + {AddressOf(e, prefix)} else s - {AddressOf(e, prefix)}
  }

  function SetRun(s: set<string>, es: seq<Event>, prefix: string): set<string> {
    if es == [] then s else SetStep(SetRun(s, es[..|es| - 1], prefix), es[|es| - 1], prefix)
  }

  /** The sets to publish: one for every event that changes the set. */
  function Changes(s: set<string>, es: seq<Event>, prefix: string): seq<set<string>> {
    if es == [] then []
    else
      var front := es[..|es| - 1];
      var before := SetRun(s, front, prefix);
      var after := SetStep(before, es[|es| - 1], prefix);
      Changes(s, front, prefix) + if after == before then [] else [after]
  }

  // ----- What the code does to the list

  predicate Distinct(l: seq<string>) {
    forall i, j :: 0 <= i < j < |l| ==> l[i] != l[j]
  }

  function Elements(l: seq<string>): set<string> { set a | a in l }

  /** The list without its i-th item, whose place the last one takes. */
  function SwapOut(l: seq<string>, i: nat): seq<string>
    requires i < |l|
  {
    l[i := l[|l| - 1]][..|l| - 1]
  }

  function FirstAt(l: seq<string>, a: string): (i: nat)
    requires a in l
    ensures i < |l| && l[i] == a && a !in l[..i]
  {
    if l[0] == a then 0
    else
      assert l[1..][..FirstAt(l[1..], a)] == l[1..1 + FirstAt(l[1..], a)];
      assert l[..1 + FirstAt(l[1..], a)] == [l[0]] + l[1..1 + FirstAt(l[1..], a)];
      1 + FirstAt(l[1..], a)
  }

  /** The list, and the contents of every list published so far. */
  datatype View = View(list: seq<string>, published: seq<seq<string>>)

  function Publish(v: View, list: seq<string>): View {
    View(list, v.published + [list])
  }

  function Step(v: View, e: Event, prefix: string): View {
    var a := AddressOf(e, prefix);
    if e.Put? then (if a in v.list then v else Publish(v, v.list + [a]))
    else (if a in v.list then Publish(v, SwapOut(v.list, FirstAt(v.list, a))) else v)
  }

  function Run(v: View, es: seq<Event>, prefix: string): View {
    if es == [] then v else Step(Run(v, es[..|es| - 1], prefix), es[|es| - 1], prefix)
  }

  function Trimmed(keys: seq<string>, prefix: string): (l: seq<string>)
    ensures |l| == |keys| && forall i :: 0 <= i < |l| ==> l[i] == TrimPrefix(keys[i], prefix)
  {
    seq(|keys|, i requires 0 <= i < |keys| => TrimPrefix(keys[i], prefix))
  }

  function Flat(batches: seq<seq<Event>>): seq<Event> {
    if batches == [] then [] else Flat(batches[..|batches| - 1]) + batches[|batches| - 1]
  }

  // ----- The list refines the set

  lemma {:induction false} SwapOutIsRemoval(l: seq<string>, i: nat)
    requires i < |l| && Distinct(l)
    ensures Distinct(SwapOut(l, i)) && Elements(SwapOut(l, i)) == Elements(l) - {l[i]}
  {
    var m := |l| - 1;
    var r := SwapOut(l, i);
    forall a | a in Elements(l) - {l[i]} ensures a in r {
      var j :| 0 <= j < |l| && l[j] == a;
      assert j == m ==> r[i] == a;
      assert j < m ==> r[j] == a;
    }
    forall a | a in r ensures a in Elements(l) - {l[i]} {
      var j :| 0 <= j < m && r[j] == a;
      assert a == if j == i then l[m] else l[j];
    }
  }

  lemma AppendIsAddition(l: seq<string>, a: string)
    requires Distinct(l) && a !in l
    ensures Distinct(l + [a]) && Elements(l + [a]) == Elements(l) + {a}
  {
    assert forall b :: b in l + [a] <==> b in l || b == a;
  }

  /** One event: no duplicates, the set changes as it should, and a list is published exactly
      when the set changes, with the new set for its contents. */
  lemma {:induction false} StepRefines(v: View, e: Event, prefix: string)
    requires Distinct(v.list)
    ensures var w := Step(v, e, prefix);
            && Distinct(w.list) && Elements(w.list) == SetStep(Elements(v.list), e, prefix)
            && w.published == v.published + if Elements(w.list) == Elements(v.list) then [] else [w.list]
  {
    var a := AddressOf(e, prefix);
    assert a in v.list <==> a in Elements(v.list);
    if e.Put? && a !in v.list {
      AppendIsAddition(v.list, a);
      assert a in Elements(v.list + [a]);
    } else if e.Delete? && a in v.list {
      SwapOutIsRemoval(v.list, FirstAt(v.list, a));
      assert a !in Elements(SwapOut(v.list, FirstAt(v.list, a)));
    }
  }

  function AllElements(ls: seq<seq<string>>): (r: seq<set<string>>)
    ensures |r| == |ls| && forall i :: 0 <= i < |r| ==> r[i] == Elements(ls[i])
  {
    seq(|ls|, i requires 0 <= i < |ls| => Elements(ls[i]))
  }

  lemma {:induction false} RunFolds(v: View, es: seq<Event>, prefix: string)
    requires Distinct(v.list)
    ensures var w := Run(v, es, prefix);
            && Distinct(w.list) && Elements(w.list) == SetRun(Elements(v.list), es, prefix)
            && AllElements(w.published) == AllElements(v.published) + Changes(Elements(v.list), es, prefix)
  {
    if es != [] {
      RunFolds(v, es[..|es| - 1], prefix);
      StepRefines(Run(v, es[..|es| - 1], prefix), es[|es| - 1], prefix);
    }
  }

  /** Any run of events: the list is the set folded over them, free of duplicates, and the lists
      published are exactly the sets the fold went through. */
  lemma {:induction false} RunRefines(v: View, es: seq<Event>, prefix: string)
    requires Distinct(v.list)
    ensures var w := Run(v, es, prefix);
            && Distinct(w.list) && Elements(w.list) == SetRun(Elements(v.list), es, prefix)
            && |w.list| == |Elements(w.list)|
            && AllElements(w.published) == AllElements(v.published) + Changes(Elements(v.list), es, prefix)
  {
    RunFolds(v, es, prefix);
    DistinctSize(Run(v, es, prefix).list);
  }

  /** The whole watch, from distinct keys under the prefix: the list holds each address of the set
      once, and the lists published are the first set and then every changed one. */
  lemma {:induction false} WatchRefines(keys: seq<string>, prefix: string, batches: seq<seq<Event>>)
    requires Distinct(keys) && forall i :: 0 <= i < |keys| ==> prefix <= keys[i]
    ensures var first := Trimmed(keys, prefix);
            var w := Run(View(first, [first]), Flat(batches), prefix);
            && Distinct(w.list) && Elements(w.list) == SetRun(Elements(first), Flat(batches), prefix)
            && AllElements(w.published) == [Elements(first)] + Changes(Elements(first), Flat(batches), prefix)
  {
    TrimmedDistinct(keys, prefix);
    RunRefines(View(Trimmed(keys, prefix), [Trimmed(keys, prefix)]), Flat(batches), prefix);
    assert AllElements([Trimmed(keys, prefix)]) == [Elements(Trimmed(keys, prefix))];
  }

  lemma {:induction false} DistinctSize(l: seq<string>)
    requires Distinct(l)
    ensures |l| == |Elements(l)|
  {
    if l != [] {
      var m := |l| - 1;
      DistinctSize(l[..m]);
      AppendIsAddition(l[..m], l[m]);
      assert l == l[..m] + [l[m]];
    }
  }

  /** Distinct keys under the prefix leave distinct addresses. */
  lemma {:induction false} TrimmedDistinct(keys: seq<string>, prefix: string)
    requires Distinct(keys) && forall i :: 0 <= i < |keys| ==> prefix <= keys[i]
    ensures Distinct(Trimmed(keys, prefix))
  {
    forall i, j | 0 <= i < j < |keys| ensures Trimmed(keys, prefix)[i] != Trimmed(keys, prefix)[j] {
      assert keys[i] == prefix + keys[i][|prefix|..] && keys[j] == prefix + keys[j][|prefix|..];
    }
  }

  // ----- The list in terms of the keys

  /** The keys and the events under the prefix for addresses and for events on addresses. */
  function KeysUnder(prefix: string, addresses: seq<string>): (keys: seq<string>)
    ensures |keys| == |addresses| && forall i :: 0 <= i < |keys| ==> keys[i] == prefix + addresses[i]
  {
    seq(|addresses|, i requires 0 <= i < |addresses| => prefix + addresses[i])
  }

  function EventUnder(prefix: string, e: Event): Event {
    if e.Put? then Put(prefix + e.key) else Delete(prefix + e.key)
  }

  function EventsUnder(prefix: string, es: seq<Event>): (us: seq<Event>)
    ensures |us| == |es| && forall i :: 0 <= i < |us| ==> us[i] == EventUnder(prefix, es[i])
  {
    seq(|es|, i requires 0 <= i < |es| => EventUnder(prefix, es[i]))
  }

  /** What the last event on the address says, or what was so at first. */
  function Present(es: seq<Event>, address: string, first: bool): bool {
    if es == [] then first
    else if es[|es| - 1].key == address then es[|es| - 1].Put?
    else Present(es[..|es| - 1], address, first)
  }

  lemma Untrimmed(prefix: string, a: string)
    ensures TrimPrefix(prefix + a, prefix) == a
  {
    assert (prefix + a)[|prefix|..] == a && prefix <= prefix + a;
  }

  lemma PresentAfter(v: View, e: Event, prefix: string, a: string)
    requires Distinct(v.list)
    ensures a in Step(v, EventUnder(prefix, e), prefix).list <==> if e.key == a then e.Put? else a in v.list
  {
    Untrimmed(prefix, e.key);
    var w := Step(v, EventUnder(prefix, e), prefix);
    StepRefines(v, EventUnder(prefix, e), prefix);
    assert a in w.list <==> a in Elements(w.list);
    assert a in v.list <==> a in Elements(v.list);
  }

  lemma {:induction false} PresentInRun(v: View, es: seq<Event>, prefix: string, a: string)
    requires Distinct(v.list)
    ensures a in Run(v, EventsUnder(prefix, es), prefix).list <==> Present(es, a, a in v.list)
  {
    if es != [] {
      var front := es[..|es| - 1];
      assert EventsUnder(prefix, es)[..|es| - 1] == EventsUnder(prefix, front);
      PresentInRun(v, front, prefix, a);
      RunRefines(v, EventsUnder(prefix, front), prefix);
      PresentAfter(Run(v, EventsUnder(prefix, front), prefix), es[|es| - 1], prefix, a);
    }
  }

  lemma {:induction false} LastPublished(v: View, es: seq<Event>, prefix: string)
    requires v.published != [] && v.published[|v.published| - 1] == v.list
    ensures var w := Run(v, es, prefix);
            w.published != [] && w.published[|w.published| - 1] == w.list
  {
    if es != [] {
      LastPublished(v, es[..|es| - 1], prefix);
    }
  }

  /** After a watch from the keys of some addresses, an address is in the list, and in the list
      published last, if and only if the last event on its key was a put, or there was none and
      its key was there at first. */
  lemma {:induction false} ListedExactly(first: seq<string>, es: seq<Event>, prefix: string, a: string)
    requires Distinct(first)
    ensures var list := Trimmed(KeysUnder(prefix, first), prefix);
            var w := Run(View(list, [list]), EventsUnder(prefix, es), prefix);
            && (a in w.list <==> Present(es, a, a in first))
            && w.published != [] && w.published[|w.published| - 1] == w.list && Distinct(w.list)
  {
    var list := Trimmed(KeysUnder(prefix, first), prefix);
    forall i | 0 <= i < |first| ensures list[i] == first[i] {
      Untrimmed(prefix, first[i]);
    }
    assert list == first;
    PresentInRun(View(list, [list]), es, prefix, a);
    LastPublished(View(list, [list]), EventsUnder(prefix, es), prefix);
    RunRefines(View(list, [list]), EventsUnder(prefix, es), prefix);
  }

  lemma {:induction false} RunConcat(v: View, a: seq<Event>, b: seq<Event>, prefix: string)
    ensures Run(v, a + b, prefix) == Run(Run(v, a, prefix), b, prefix)
  {
    if b == [] {
      assert a + b == a;
    } else {
      assert (a + b)[..|a + b| - 1] == a + b[..|b| - 1];
      RunConcat(v, a, b[..|b| - 1], prefix);
    }
  }

  // ----- The watcher

  class Watcher {
    var data: array<string>
    var len: nat
    var published: seq<seq<string>>

    ghost predicate Valid()
      reads this
    {
      len <= data.Length
    }

    ghost function Value(): View
      reads this, data
      requires Valid()
    {
      View(data[..len], published)
    }

    constructor ()
      ensures Valid() && fresh(data) && Value() == View([], [])
    {
      data, len, published := new string[0], 0, [];
    }

    method NewAddress()
      requires Valid()
      modifies this
      ensures Valid() && data == old(data) && Value() == Publish(old(Value()), old(Value()).list)
    {
      published := published + [data[..len]];
    }

    method Exist(addr: string) returns (found: bool)
      requires Valid()
      ensures found <==> addr in Value().list
    {
      var i := 0;
      while i < len
        invariant i <= len && addr !in data[..i]
      {
        if data[i] == addr {
          return true;
        }
        i := i + 1;
      }
      return false;
    }

    /** Appending takes a larger array when the present one is full. */
    method Append(addr: string)
      requires Valid()
      modifies this, data
      ensures Valid() && (data == old(data) || fresh(data))
      ensures Value() == View(old(data[..len]) + [addr], old(published))
    {
      if len == data.Length {
        var larger := new string[2 * len + 1](_ => addr);
        forall i | 0 <= i < len {
          larger[i] := data[i];
        }
        assert larger[..len] == data[..len];
        data := larger;
      }
      data[len] := addr;
      len := len + 1;
    }

    method Remove(addr: string) returns (ok: bool)
      requires Valid()
      modifies this, data
      ensures Valid() && data == old(data) && ok == (addr in old(Value()).list)
      ensures Value() == if ok then View(SwapOut(old(Value()).list, FirstAt(old(Value()).list, addr)), old(published))
                         else old(Value())
    {
      var i := 0;
      while i < len
        invariant i <= len && len == old(len) && data == old(data) && addr !in data[..i]
        invariant Value() == old(Value())
      {
        if data[i] == addr {
          FirstIs(data[..len], addr, i);
          data[i] := data[len - 1];
          len := len - 1;
          return true;
        }
        i := i + 1;
      }
      return false;
    }

    method Apply(e: Event, prefix: string)
      requires Valid()
      modifies this, data
      ensures Valid() && (data == old(data) || fresh(data))
      ensures Value() == Step(old(Value()), e, prefix)
    {
      var addr := TrimPrefix(e.key, prefix);
      match e {
        case Put(_) =>
          var found := Exist(addr);
          if !found {
            Append(addr);
            NewAddress();
          }
        case Delete(_) =>
          var ok := Remove(addr);
          if ok {
            NewAddress();
          }
      }
    }

    method ApplyAll(es: seq<Event>, prefix: string)
      requires Valid()
      modifies this, data
      ensures Valid() && (data == old(data) || fresh(data))
      ensures Value() == Run(old(Value()), es, prefix)
    {
      var i := 0;
      while i < |es|
        invariant i <= |es| && Valid() && (data == old(data) || fresh(data))
        invariant Value() == Run(old(Value()), es[..i], prefix)
      {
        assert es[..i + 1][..i] == es[..i];
        Apply(es[i], prefix);
        i := i + 1;
      }
      assert es[..i] == es;
    }

    /** The keys read at first become the list. */
    method ReadKeys(keys: seq<string>, prefix: string)
      requires Valid() && Value() == View([], [])
      modifies this, data
      ensures Valid() && (data == old(data) || fresh(data))
      ensures Value() == View(Trimmed(keys, prefix), [])
    {
      var k := 0;
      while k < |keys|
        invariant k <= |keys| && Valid() && (data == old(data) || fresh(data))
        invariant Value() == View(Trimmed(keys, prefix)[..k], [])
      {
        Append(TrimPrefix(keys[k], prefix));
        k := k + 1;
      }
      assert Trimmed(keys, prefix)[..k] == Trimmed(keys, prefix);
    }

    /** The watch on a new list: the keys read at first, none when reading fails, then the events
        delivered, batch after batch. */
    method Watch(keys: seq<string>, prefix: string, batches: seq<seq<Event>>)
      requires Valid() && Value() == View([], [])
      modifies this, data
      ensures Valid()
      ensures Value() == Run(View(Trimmed(keys, prefix), [Trimmed(keys, prefix)]), Flat(batches), prefix)
    {
      ReadKeys(keys, prefix);
      NewAddress();
      ghost var begin := Value();
      assert begin == View(Trimmed(keys, prefix), [Trimmed(keys, prefix)]);
      var n := 0;
      while n < |batches|
        invariant n <= |batches| && Valid() && (data == old(data) || fresh(data))
        invariant Value() == Run(begin, Flat(batches[..n]), prefix)
      {
        assert batches[..n + 1][..n] == batches[..n];
        ApplyAll(batches[n], prefix);
        RunConcat(begin, Flat(batches[..n]), batches[n], prefix);
        n := n + 1;
      }
      assert batches[..n] == batches;
    }
  }

  lemma FirstIs(l: seq<string>, a: string, i: nat)
    requires i < |l| && l[i] == a && a !in l[..i]
    ensures FirstAt(l, a) == i
  {
    var f := FirstAt(l, a);
    assert forall k :: 0 <= k < i ==> l[..i][k] == l[k] && l[..i][k] != a;
    assert forall k :: 0 <= k < f ==> l[..f][k] == l[k] && l[..f][k] != a;
  }
}
