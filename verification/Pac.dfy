/** The table of hosts behind the proxy list: saved to text, read back, asked by suffix. */
module Pac {
  import opened Text

  type Hosts = map<string, bool>

  // ----- Saving and reading back

  function Line(host: string, allowed: bool): string {
    host + ([':'] + if allowed then "1" else "0")
  }

  /** The text written for the hosts in the order the map is walked. */
  function Written(t: Hosts, order: seq<string>): string
    requires forall h :: h in order ==> h in t
  {
    if order == [] then ""
    else
      var m := |order| - 1;
      Written(t, order[..m]) + (Line(order[m], t[order[m]]) + ['\n'])
  }

  function ParseLine(t: Hosts, line: string): Hosts {
    var fields := Split(line, ':');
    if |fields| == 2 then t[fields[0] := fields[1] == "1"] else t
  }

  function ParseLines(t: Hosts, lines: seq<string>): Hosts {
    if lines == [] then t else ParseLine(ParseLines(t, lines[..|lines| - 1]), lines[|lines| - 1])
  }

  function Parse(t: Hosts, body: string): Hosts { ParseLines(t, Split(body, '\n')) }

  /** The order walks every host of the table once. */
  ghost predicate Walks(order: seq<string>, t: Hosts) {
    && (forall i, j :: 0 <= i < j < |order| ==> order[i] != order[j])
    && (forall h :: h in order <==> h in t)
  }

  predicate Plain(host: string) { ':' !in host && '\n' !in host }

  function Lines(t: Hosts, order: seq<string>): (ls: seq<string>)
    requires forall h :: h in order ==> h in t
    ensures |ls| == |order| && forall i :: 0 <= i < |ls| ==> ls[i] == Line(order[i], t[order[i]])
  {
    seq(|order|, i requires 0 <= i < |order| => Line(order[i], t[order[i]]))
  }

  /** The parts with b put behind the last one. */
  function LastExtended(parts: seq<string>, b: string): seq<string>
    requires parts != []
  {
    parts[..|parts| - 1] + [parts[|parts| - 1] + b]
  }

  lemma ExtendedBehind(first: string, rest: seq<string>, b: string)
    requires rest != []
    ensures LastExtended([first] + rest, b) == [first] + LastExtended(rest, b)
  {
  }

  lemma ExtendedWithin(c: char, rest: seq<string>, b: string)
    requires rest != []
    ensures var longer := LastExtended(rest, b);
            LastExtended([[c] + rest[0]] + rest[1..], b) == [[c] + longer[0]] + longer[1..]
  {
    if |rest| == 1 {
      assert [c] + (rest[0] + b) == [c] + rest[0] + b;
    } else {
      ExtendedBehind([c] + rest[0], rest[1..], b);
      ExtendedBehind(rest[0], rest[1..], b);
      assert rest == [rest[0]] + rest[1..];
    }
  }

  lemma {:induction false} SplitExtended(a: string, c: char, b: string)
    requires c !in b
    ensures Split(a + b, c) == LastExtended(Split(a, c), b)
  {
    if a == "" {
      assert a + b == b;
      SplitWhole(b, c);
    } else {
      assert (a + b)[1..] == a[1..] + b;
      SplitExtended(a[1..], c, b);
      ExtendedBehind("", Split(a[1..], c), b);
      ExtendedWithin(a[0], Split(a[1..], c), b);
    }
  }

  lemma LineUnbroken(host: string, allowed: bool)
    requires '\n' !in host
    ensures '\n' !in Line(host, allowed)
  {
  }

  /** One more line written is one more part. */
  lemma SplitOneMore(before: string, line: string, lines: seq<string>)
    requires Split(before, '\n') == lines + [""] && '\n' !in line
    ensures Split(before + (line + ['\n']), '\n') == lines + [line] + [""]
  {
    SplitExtended(before, '\n', line);
    assert (lines + [""])[..|lines|] == lines && "" + line == line;
    SplitAt(before + line, '\n', "");
    assert before + (line + ['\n']) == before + line + ['\n'] + "";
  }

  /** What is written splits into one line for each host and an empty one. */
  lemma {:induction false} SplitWritten(t: Hosts, order: seq<string>)
    requires forall h :: h in order ==> h in t && '\n' !in h
    ensures Split(Written(t, order), '\n') == Lines(t, order) + [""]
  {
    if order != [] {
      var m := |order| - 1;
      var before, line := Written(t, order[..m]), Line(order[m], t[order[m]]);
      SplitWritten(t, order[..m]);
      LineUnbroken(order[m], t[order[m]]);
      SplitOneMore(before, line, Lines(t, order[..m]));
      assert Lines(t, order) == Lines(t, order[..m]) + [line];
    }
  }

  lemma {:induction false} SplitApart(s: string, c: char)
    requires c in s
    ensures |Split(s, c)| >= 2
  {
    if s[0] != c {
      SplitApart(s[1..], c);
    }
  }

  /** A host with a colon makes a line that is skipped. */
  lemma LineRead(t: Hosts, host: string, allowed: bool)
    ensures ParseLine(t, Line(host, allowed)) == if ':' in host then t else t[host := allowed]
  {
    var digit := if allowed then "1" else "0";
    assert Line(host, allowed) == host + [':'] + digit;
    SplitAt(host, ':', digit);
    SplitWhole(digit, ':');
    if ':' in host {
      SplitApart(host, ':');
    } else {
      SplitWhole(host, ':');
    }
  }

  /** A line of two parts sets the host before the colon, to yes only when "1" follows; a line of
      more or fewer parts says nothing. */
  lemma {:induction false} LineExactly(t: Hosts, host: string, said: string, rest: string)
    requires ':' !in host && ':' !in said
    ensures ParseLine(t, host + ":" + said) == t[host := said == "1"]
    ensures ParseLine(t, host) == t && ParseLine(t, host + ":" + said + ":" + rest) == t
  {
    SplitWhole(host, ':');
    SplitWhole(said, ':');
    SplitAt(host, ':', said);
    SplitAt(host + ":" + said, ':', rest);
  }

  /** The hosts put into the table one after another, but for those with a colon. */
  function Entered(q: Hosts, t: Hosts, order: seq<string>): Hosts
    requires forall h :: h in order ==> h in t
  {
    if order == [] then q
    else
      var last := order[|order| - 1];
      var before := Entered(q, t, order[..|order| - 1]);
      if ':' in last then before else before[last := t[last]]
  }

  lemma {:induction false} LinesRead(q: Hosts, t: Hosts, order: seq<string>)
    requires forall h :: h in order ==> h in t && '\n' !in h
    ensures ParseLines(q, Lines(t, order)) == Entered(q, t, order)
  {
    if order != [] {
      var m := |order| - 1;
      LinesRead(q, t, order[..m]);
      assert Lines(t, order)[..m] == Lines(t, order[..m]);
      LineRead(Entered(q, t, order[..m]), order[m], t[order[m]]);
    }
  }

  lemma {:induction false} EnteredIs(q: Hosts, t: Hosts, order: seq<string>)
    requires forall h :: h in order ==> h in t
    ensures var r := Entered(q, t, order);
            && (forall h :: h in r <==> h in q || (h in order && ':' !in h))
            && forall h :: h in r ==> r[h] == if h in order && ':' !in h then t[h] else q[h]
  {
    if order != [] {
      var m := |order| - 1;
      EnteredIs(q, t, order[..m]);
      assert forall h :: h in order <==> h in order[..m] || h == order[m];
    }
  }

  /** The hosts that can be read back. */
  function Kept(t: Hosts): Hosts { map h | h in t && ':' !in h :: t[h] }

  lemma MergedIs(r: Hosts, q: Hosts, t: Hosts, order: seq<string>)
    requires Walks(order, t)
    requires forall h :: h in r <==> h in q || (h in order && ':' !in h)
    requires forall h :: h in r ==> r[h] == if h in order && ':' !in h then t[h] else q[h]
    ensures r == q + Kept(t)
  {
  }

  lemma AllLinesRead(q: Hosts, t: Hosts, order: seq<string>)
    requires Walks(order, t) && forall h :: h in t ==> '\n' !in h
    ensures ParseLines(q, Lines(t, order)) == q + Kept(t)
  {
    LinesRead(q, t, order);
    EnteredIs(q, t, order);
    MergedIs(Entered(q, t, order), q, t, order);
  }

  lemma EmptyLineRead(q: Hosts, lines: seq<string>)
    ensures ParseLines(q, lines + [""]) == ParseLines(q, lines)
  {
    assert (lines + [""])[..|lines|] == lines;
    assert |Split("", ':')| == 1;
  }

  /** Reading back what was saved, without line breaks in its hosts, adds the hosts without a
      colon to the present table, whatever order they were written in. */
  lemma {:induction false} ParseWritten(q: Hosts, t: Hosts, order: seq<string>)
    requires Walks(order, t) && forall h :: h in t ==> '\n' !in h
    ensures Parse(q, Written(t, order)) == q + Kept(t)
  {
    SplitWritten(t, order);
    AllLinesRead(q, t, order);
    EmptyLineRead(q, Lines(t, order));
  }

  lemma {:induction false} PartsInside(s: string, c: char, d: char)
    requires d !in s
    ensures forall i :: 0 <= i < |Split(s, c)| ==> d !in Split(s, c)[i]
  {
    if s != "" {
      PartsInside(s[1..], c, d);
    }
  }

  lemma {:induction false} KeysReadArePlain(t: Hosts, lines: seq<string>)
    requires forall h :: h in t ==> Plain(h)
    requires forall i :: 0 <= i < |lines| ==> '\n' !in lines[i]
    ensures forall h :: h in ParseLines(t, lines) ==> Plain(h)
  {
    if lines != [] {
      KeysReadArePlain(t, lines[..|lines| - 1]);
      PartsInside(lines[|lines| - 1], ':', '\n');
    }
  }

  /** A saved table is restored from its text if and only if no host has a colon or a line
      break in it. */
  lemma {:induction false} RestoredExactly(t: Hosts, order: seq<string>)
    requires Walks(order, t)
    ensures Parse(map[], Written(t, order)) == t <==> forall h :: h in t ==> Plain(h)
  {
    KeysReadArePlain(map[], Split(Written(t, order), '\n'));
    if forall h :: h in t ==> Plain(h) {
      ParseWritten(map[], t, order);
      assert map[] + Kept(t) == t;
    }
  }

  // ----- The decision

  /** k is the host, or what follows one of its dots. */
  ghost predicate DotSuffix(host: string, k: string) {
    host == k || exists p: string :: host == p + (['.'] + k)
  }

  ghost predicate LongestIn(t: Hosts, host: string, k: string) {
    && k in t && DotSuffix(host, k)
    && forall other :: other in t && DotSuffix(host, other) ==> |other| <= |k|
  }

  /** The answer is the value of the longest dot-suffix in the table, no when there is none. */
  ghost predicate Decides(t: Hosts, host: string, allowed: bool) {
    if exists k :: LongestIn(t, host, k)
    then exists k :: LongestIn(t, host, k) && t[k] == allowed
    else !allowed && forall k :: k in t ==> !DotSuffix(host, k)
  }

  lemma SuffixesNest(host: string, a: string, b: string)
    requires DotSuffix(host, a) && DotSuffix(host, b) && |a| == |b|
    ensures a == b
  {
    assert a == host[|host| - |a|..];
    assert b == host[|host| - |b|..];
  }

  /** The answer is determined. */
  lemma {:induction false} DecidesOnce(t: Hosts, host: string, r: bool, s: bool)
    requires Decides(t, host, r) && Decides(t, host, s)
    ensures r == s
  {
    if exists k :: LongestIn(t, host, k) {
      var a :| LongestIn(t, host, a) && t[a] == r;
      var b :| LongestIn(t, host, b) && t[b] == s;
      SuffixesNest(host, a, b);
    }
  }

  function Tail(parts: seq<string>, i: nat): string
    requires i < |parts|
  {
    Join(parts[i..], ['.'])
  }

  lemma TailStep(parts: seq<string>, i: nat)
    requires i + 1 < |parts|
    ensures Tail(parts, i) == parts[i] + (['.'] + Tail(parts, i + 1))
  {
    assert parts[i..][1..] == parts[i + 1..];
  }

  lemma {:induction false} TailIsSuffix(parts: seq<string>, i: nat)
    requires i < |parts|
    ensures DotSuffix(Tail(parts, 0), Tail(parts, i))
  {
    if i > 0 {
      TailIsSuffix(parts, i - 1);
      TailStep(parts, i - 1);
      var whole, last := Tail(parts, 0), Tail(parts, i);
      if whole == Tail(parts, i - 1) {
        assert whole == parts[i - 1] + (['.'] + last);
      } else {
        var p :| whole == p + (['.'] + Tail(parts, i - 1));
        assert whole == (p + ['.'] + parts[i - 1]) + (['.'] + last);
      }
    }
  }

  lemma {:induction false} TailsShrink(parts: seq<string>, i: nat, j: nat)
    requires i <= j < |parts|
    ensures |Tail(parts, j)| <= |Tail(parts, i)|
    decreases j - i
  {
    if i < j {
      TailStep(parts, i);
      TailsShrink(parts, i + 1, j);
    }
  }

  /** Every dot-suffix is a tail of the parts. */
  lemma SuffixIsTail(host: string, k: string) returns (i: nat)
    requires DotSuffix(host, k)
    ensures i < |Split(host, '.')| && Tail(Split(host, '.'), i) == k
  {
    if host == k {
      i := 0;
      JoinSplit(host, '.');
      assert Split(host, '.')[0..] == Split(host, '.');
    } else {
      var p :| host == p + (['.'] + k);
      assert host == p + ['.'] + k;
      SplitAt(p, '.', k);
      JoinSplit(k, '.');
      i := |Split(p, '.')|;
      assert Split(host, '.')[i..] == Split(k, '.');
    }
  }

  lemma NoTailNoSuffix(t: Hosts, host: string, n: nat)
    requires n <= |Split(host, '.')|
    requires forall j :: 0 <= j < n ==> Tail(Split(host, '.'), j) !in t
    ensures n == |Split(host, '.')| ==> Decides(t, host, false)
    ensures n < |Split(host, '.')| && Tail(Split(host, '.'), n) in t ==>
              LongestIn(t, host, Tail(Split(host, '.'), n))
              && Decides(t, host, t[Tail(Split(host, '.'), n)])
  {
    var parts := Split(host, '.');
    forall k | k in t && DotSuffix(host, k)
      ensures n < |parts| && |k| <= |Tail(parts, n)|
    {
      var i := SuffixIsTail(host, k);
      assert i >= n;
      TailsShrink(parts, n, i);
    }
    if n < |parts| {
      TailIsSuffix(parts, n);
      JoinSplit(host, '.');
      assert parts[0..] == parts;
    }
  }

  /** What stands before the port. */
  function HostOf(addr: string): string { Split(addr, ':')[0] }

  lemma {:induction false} HostEndsAtColon(addr: string)
    ensures ':' !in HostOf(addr) && HostOf(addr) <= addr
    ensures HostOf(addr) == addr || (|HostOf(addr)| < |addr| && addr[|HostOf(addr)|] == ':')
  {
    if addr != "" {
      HostEndsAtColon(addr[1..]);
    }
  }

  // ----- When the decisions survive a save and a reload

  /** The tables give the same answer for every host an address can name. */
  ghost predicate DecideAlike(t: Hosts, u: Hosts) {
    forall host: string, r: bool :: ':' !in host ==> (Decides(t, host, r) <==> Decides(u, host, r))
  }

  lemma SuffixOfHost(host: string, k: string)
    requires DotSuffix(host, k) && ':' !in host
    ensures ':' !in k
  {
    assert k == host[|host| - |k|..];
  }

  lemma ColonsNeverMatter(t: Hosts, host: string, r: bool)
    requires ':' !in host
    ensures Decides(t, host, r) <==> Decides(Kept(t), host, r)
  {
    var u := Kept(t);
    forall k | k in t && DotSuffix(host, k) ensures k in u && u[k] == t[k] {
      SuffixOfHost(host, k);
    }
    assert forall k :: LongestIn(t, host, k) <==> LongestIn(u, host, k);
  }

  /** Without line breaks in its hosts every decision of a saved table survives, colons or not. */
  lemma {:induction false} DecisionsSurvive(t: Hosts, order: seq<string>)
    requires Walks(order, t) && forall h :: h in t ==> '\n' !in h
    ensures DecideAlike(t, Parse(map[], Written(t, order)))
  {
    ParseWritten(map[], t, order);
    assert map[] + Kept(t) == Kept(t);
    forall host: string, r: bool | ':' !in host ensures Decides(t, host, r) <==> Decides(Kept(t), host, r) {
      ColonsNeverMatter(t, host, r);
    }
  }

  lemma SuffixesCompare(host: string, k: string, a: string)
    requires DotSuffix(host, k) && DotSuffix(host, a) && |a| <= |k|
    ensures DotSuffix(k, a)
  {
    assert k == host[|host| - |k|..] && a == host[|host| - |a|..];
    if |a| < |k| {
      assert host[|host| - |a| - 1] == '.';
      assert k == k[..|k| - |a| - 1] + (['.'] + a);
    }
  }

  lemma SuffixesChain(host: string, k: string, a: string)
    requires DotSuffix(host, k) && DotSuffix(k, a)
    ensures DotSuffix(host, a)
  {
    if host != k && k != a {
      var p: string :| host == p + (['.'] + k);
      var q: string :| k == q + (['.'] + a);
      assert host == (p + ['.'] + q) + (['.'] + a);
    }
  }

  /** A host is decided like any dot-suffix of it as long as each of its own in the table. */
  lemma DecidedBySuffix(t: Hosts, host: string, k: string, r: bool)
    requires DotSuffix(host, k) && forall a :: a in t && DotSuffix(host, a) ==> |a| <= |k|
    ensures Decides(t, host, r) <==> Decides(t, k, r)
  {
    forall a | a in t ensures DotSuffix(host, a) <==> DotSuffix(k, a) {
      if DotSuffix(host, a) {
        SuffixesCompare(host, k, a);
      } else if DotSuffix(k, a) {
        SuffixesChain(host, k, a);
      }
    }
    assert forall a :: LongestIn(t, host, a) <==> LongestIn(t, k, a);
  }

  /** The longest dot-suffix in the table, when there is any. */
  lemma {:induction false} FindLongest(t: Hosts, host: string, n: nat) returns (k: string)
    requires n <= |Split(host, '.')| && forall j :: 0 <= j < n ==> Tail(Split(host, '.'), j) !in t
    requires exists a :: a in t && DotSuffix(host, a)
    ensures LongestIn(t, host, k)
    decreases |Split(host, '.')| - n
  {
    NoTailNoSuffix(t, host, n);
    if n < |Split(host, '.')| && Tail(Split(host, '.'), n) in t {
      k := Tail(Split(host, '.'), n);
    } else if n < |Split(host, '.')| {
      k := FindLongest(t, host, n + 1);
    } else {
      var a :| a in t && DotSuffix(host, a);
      var i := SuffixIsTail(host, a);
      assert false;
    }
  }

  /** Two tables decide every host alike if and only if they decide alike the hosts they hold. */
  lemma {:induction false} AlikeExactly(t: Hosts, u: Hosts)
    ensures DecideAlike(t, u)
            <==> forall k, r: bool :: (k in t || k in u) && ':' !in k ==> (Decides(t, k, r) <==> Decides(u, k, r))
  {
    if forall k, r: bool :: (k in t || k in u) && ':' !in k ==> (Decides(t, k, r) <==> Decides(u, k, r)) {
      forall host: string, r: bool | ':' !in host ensures Decides(t, host, r) <==> Decides(u, host, r) {
        var both := t + u;
        if exists a :: a in both && DotSuffix(host, a) {
          var k := FindLongest(both, host, 0);
          SuffixOfHost(host, k);
          DecidedBySuffix(t, host, k, r);
          DecidedBySuffix(u, host, k, r);
        }
      }
    }
  }

  // ----- The table as an object

  class Table {
    var pac: Hosts

    constructor ()
      ensures pac == map[]
    {
      pac := map[];
    }

    method Add(key: string, val: bool)
      modifies this
      ensures pac == old(pac)[key := val]
    {
      pac := pac[key := val];
    }

    method Check(addr: string) returns (allowed: bool)
      ensures Decides(pac, HostOf(addr), allowed)
    {
      if |pac| == 0 {
        assert forall k :: k !in pac;
        return false;
      }
      var host := Split(addr, ':')[0];
      var hosts := Split(host, '.');
      var pos := 0;
      while pos < |hosts|
        invariant pos <= |hosts| && forall j :: 0 <= j < pos ==> Tail(hosts, j) !in pac
      {
        var key := Join(hosts[pos..], ['.']);
        if key in pac {
          NoTailNoSuffix(pac, host, pos);
          return pac[key];
        }
        pos := pos + 1;
      }
      NoTailNoSuffix(pac, host, pos);
      return false;
    }

    method ParsePac(body: string)
      modifies this
      ensures pac == Parse(old(pac), body)
    {
      var lines := Split(body, '\n');
      var i := 0;
      while i < |lines|
        invariant i <= |lines| && pac == ParseLines(old(pac), lines[..i])
      {
        assert lines[..i + 1][..i] == lines[..i];
        var fields := Split(lines[i], ':');
        if |fields| == 2 {
          Add(fields[0], fields[1] == "1");
        }
        i := i + 1;
      }
      assert lines[..i] == lines;
    }

    /** The writing loop of updatePacFile; order is the order in which the map is walked. */
    method Write(order: seq<string>) returns (body: string)
      requires Walks(order, pac)
      ensures body == Written(pac, order)
    {
      body := "";
      var i := 0;
      while i < |order|
        invariant i <= |order| && body == Written(pac, order[..i])
      {
        assert order[..i + 1][..i] == order[..i];
        body := body + (if pac[order[i]] then order[i] + ":1\n" else order[i] + ":0\n");
        assert Line(order[i], pac[order[i]]) + ['\n'] == order[i] + if pac[order[i]] then ":1\n" else ":0\n";
        i := i + 1;
      }
      assert order[..i] == order;
    }
  }
}
