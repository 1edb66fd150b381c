/** Action names: from the name of a Go method to the actions and the verb it serves. */
module Names {
  import opened Options
  import opened Text

  // ----- Capitals to underscores

  function SnakePiece(c: char, first: bool): string {
    if !IsUpper(c) then [c] else if first then [LowerChar(c)] else ['_', LowerChar(c)]
  }

  function SnakeOf(name: string): string {
    if name == "" then ""
    else SnakeOf(name[..|name| - 1]) + SnakePiece(name[|name| - 1], |name| == 1)
  }

  method Snake(name: string) returns (snake: string)
    ensures snake == SnakeOf(name)
  {
    snake := "";
    for i := 0 to |name|
      invariant snake == SnakeOf(name[..i])
    {
      assert name[..i + 1][..i] == name[..i];
      var c := name[i];
      if 'A' <= c <= 'Z' {
        if i > 0 {
          snake := snake + ['_'];
        }
        c := c - 'A' + 'a';
      }
      snake := snake + [c];
    }
    assert name[..|name|] == name;
  }

  /** Every occurrence of c removed. */
  function Delete(s: string, c: char): string {
    if s == "" then ""
    else Delete(s[..|s| - 1], c) + (if s[|s| - 1] == c then "" else [s[|s| - 1]])
  }

  lemma {:induction false} DeleteConcat(a: string, b: string, c: char)
    ensures Delete(a + b, c) == Delete(a, c) + Delete(b, c)
  {
    if b == "" {
      assert a + b == a;
    } else {
      assert (a + b)[..|a + b| - 1] == a + b[..|b| - 1];
      DeleteConcat(a, b[..|b| - 1], c);
    }
  }

  lemma DeleteFromPiece(c: char, first: bool)
    requires c != '_'
    ensures Delete(SnakePiece(c, first), '_') == [LowerChar(c)]
  {
    var piece := SnakePiece(c, first);
    if |piece| == 2 {
      assert piece[..1] == ['_'] && ['_'][..0] == "";
      assert Delete(['_'], '_') == "";
    } else {
      assert piece[..0] == "";
    }
  }

  /** Without its underscores the snake form is the lower-case form. */
  lemma {:induction false} SnakeIsLowerCase(name: string)
    requires '_' !in name
    ensures Delete(SnakeOf(name), '_') == ToLower(name)
  {
    if name != "" {
      var m := |name| - 1;
      var front, c := name[..m], name[m];
      assert c in name;
      SnakeIsLowerCase(front);
      DeleteConcat(SnakeOf(front), SnakePiece(c, |name| == 1), '_');
      DeleteFromPiece(c, |name| == 1);
      LowerSnoc(name);
    }
  }

  lemma LowerSnoc(name: string)
    requires name != ""
    ensures ToLower(name) == ToLower(name[..|name| - 1]) + [LowerChar(name[|name| - 1])]
  {
  }

  /** The inverse: underscores dropped, the first letter and each letter after one made
      capital. */
  function Camel(s: string): string {
    if s == "" then ""
    else
      var m := |s| - 1;
      var rest := Camel(s[..m]);
      if s[m] == '_' then rest
      else rest + [if m == 0 || s[m - 1] == '_' then UpperChar(s[m]) else s[m]]
  }

  lemma {:induction false} SnakeEndsPlain(name: string)
    requires '_' !in name && name != ""
    ensures SnakeOf(name) != "" && SnakeOf(name)[|SnakeOf(name)| - 1] != '_'
  {
    assert name[|name| - 1] in name;
  }

  lemma CamelAfterPlain(s: string, c: char)
    requires s != "" && s[|s| - 1] != '_' && c != '_'
    ensures Camel(s + [c]) == Camel(s) + [c]
  {
    var t := s + [c];
    var front := t[..|t| - 1];
    assert front == s && t[|t| - 1] == c && t[|t| - 2] == s[|s| - 1];
  }

  lemma CamelAfterMark(s: string, c: char)
    requires IsUpper(c)
    ensures Camel(s + ['_', LowerChar(c)]) == Camel(s) + [c]
  {
    var marked := s + ['_'];
    assert marked[..|s|] == s;
    assert s + ['_', LowerChar(c)] == marked + [LowerChar(c)];
    assert (marked + [LowerChar(c)])[..|marked|] == marked;
  }

  /** On names that start with a capital the snake form can be undone. */
  lemma {:induction false} SnakeUndone(name: string)
    requires '_' !in name && (name == "" || IsUpper(name[0]))
    ensures Camel(SnakeOf(name)) == name
  {
    if name != "" {
      var m := |name| - 1;
      var front, c := name[..m], name[m];
      assert name == front + [c] && c in name;
      SnakeUndone(front);
      if m == 0 {
        CamelOfFirst(c);
      } else if IsUpper(c) {
        CamelAfterMark(SnakeOf(front), c);
      } else {
        SnakeEndsPlain(front);
        CamelAfterPlain(SnakeOf(front), c);
      }
      SnakeSnoc(front, c);
    }
  }

  lemma CamelOfFirst(c: char)
    requires IsUpper(c)
    ensures Camel([LowerChar(c)]) == [c]
  {
    assert [LowerChar(c)][..0] == "";
  }

  lemma SnakeSnoc(front: string, c: char)
    ensures SnakeOf(front + [c]) == SnakeOf(front) + SnakePiece(c, front == "")
  {
    assert (front + [c])[..|front|] == front;
  }

  /** The name with its first letter made capital. */
  function Capital(name: string): string {
    if name == "" then "" else [UpperChar(name[0])] + name[1..]
  }

  lemma {:induction false} SnakeOfCapital(name: string)
    ensures SnakeOf(Capital(name)) == SnakeOf(name) || (name != "" && !IsUpper(Capital(name)[0]))
  {
    if |name| > 1 {
      var m := |name| - 1;
      SnakeOfCapital(name[..m]);
      assert Capital(name)[..m] == Capital(name[..m]);
    } else if |name| == 1 {
      assert Capital(name)[..0] == name[..0];
    }
  }

  /** Two names that begin with a letter have one snake form exactly when they agree but for
      the case of the first letter. */
  lemma {:induction false} SnakeInjective(a: string, b: string)
    requires '_' !in a && '_' !in b
    requires a != "" && b != "" && IsUpper(Capital(a)[0]) && IsUpper(Capital(b)[0])
    ensures SnakeOf(a) == SnakeOf(b) <==> Capital(a) == Capital(b)
  {
    SnakeOfCapital(a);
    SnakeOfCapital(b);
    forall i | 0 <= i < |Capital(a)| ensures Capital(a)[i] != '_' {
      assert i == 0 || Capital(a)[i] in a;
    }
    forall i | 0 <= i < |Capital(b)| ensures Capital(b)[i] != '_' {
      assert i == 0 || Capital(b)[i] in b;
    }
    SnakeUndone(Capital(a));
    SnakeUndone(Capital(b));
  }

  /** A snake form has no capital and no character the name lacks, underscores apart. */
  lemma {:induction false} SnakeChars(name: string)
    ensures Lowered(SnakeOf(name))
    ensures '/' !in name ==> '/' !in SnakeOf(name)
  {
    if name != "" {
      var m := |name| - 1;
      SnakeChars(name[..m]);
      assert '/' !in name ==> '/' !in name[..m] && name[m] != '/';
    }
  }

  // ----- The verb at the end of a name

  const VERBS := ["OPTIONS", "GET", "HEAD", "POST", "PUT", "DELETE", "TRACE", "CONNECT"]

  const FOR := "For"

  /** strings.Split at each "For". */
  function SplitFor(s: string): (parts: seq<string>)
    ensures |parts| >= 1
  {
    if s == "" then [""]
    else if FOR <= s then [""] + SplitFor(s[3..])
    else
      var rest := SplitFor(s[1..]);
      [[s[0]] + rest[0]] + rest[1..]
  }

  /** parts ends as s does. */
  ghost predicate EndsAs(s: string, parts: seq<string>) {
    |parts| >= 1 && if |parts| == 1 then parts[0] == s else HasSuffix(s, FOR + parts[|parts| - 1])
  }

  lemma EndAfterFor(s: string, rest: seq<string>)
    requires FOR <= s && EndsAs(s[3..], rest)
    ensures EndsAs(s, [""] + rest)
  {
    if |rest| == 1 {
      assert s == FOR + s[3..];
    } else {
      SuffixOfRest(s, 3, FOR + rest[|rest| - 1]);
    }
  }

  lemma EndAfterChar(s: string, rest: seq<string>)
    requires s != "" && EndsAs(s[1..], rest)
    ensures EndsAs(s, [[s[0]] + rest[0]] + rest[1..])
  {
    if |rest| == 1 {
      assert s == [s[0]] + s[1..];
    } else {
      SuffixOfRest(s, 1, FOR + rest[|rest| - 1]);
    }
  }

  lemma {:induction false} LastPart(s: string)
    ensures EndsAs(s, SplitFor(s))
  {
    if s != "" {
      if FOR <= s {
        LastPart(s[3..]);
        EndAfterFor(s, SplitFor(s[3..]));
      } else {
        LastPart(s[1..]);
        EndAfterChar(s, SplitFor(s[1..]));
      }
    }
  }

  lemma SuffixOfRest(s: string, n: nat, t: string)
    requires n <= |s| && HasSuffix(s[n..], t)
    ensures HasSuffix(s, t)
  {
    assert s[n..][|s| - n - |t|..] == s[|s| - |t|..];
  }

  predicate AllCapitals(v: string) { forall i :: 0 <= i < |v| ==> IsUpper(v[i]) }

  lemma {:induction false} CapitalsUnsplit(v: string)
    requires AllCapitals(v)
    ensures SplitFor(v) == [v]
  {
    if v != "" {
      assert |v| >= 2 ==> v[1] != FOR[1];
      CapitalsUnsplit(v[1..]);
      assert v == [v[0]] + v[1..];
    }
  }

  /** "For" cannot begin inside a text and end in the "For" that follows it. */
  lemma {:induction false} SplitAtFor(a: string, v: string)
    requires AllCapitals(v)
    ensures var parts := SplitFor(a + FOR + v); |parts| > 1 && parts[|parts| - 1] == v
  {
    var s := a + FOR + v;
    assert |a| == 1 ==> s[1] == FOR[0];
    assert |a| == 2 ==> s[2] == FOR[0];
    if a == "" {
      assert s == FOR + v && s[3..] == v;
      CapitalsUnsplit(v);
    } else if FOR <= s {
      assert s[0] == 'F' && s[1] == 'o' && s[2] == 'r';
      assert |a| >= 3;
      assert s[3..] == a[3..] + FOR + v;
      SplitAtFor(a[3..], v);
    } else {
      assert s[1..] == a[1..] + FOR + v;
      SplitAtFor(a[1..], v);
    }
  }

  /** The actions a method serves, the original spelling of the action, and its verb if any. */
  datatype Served = Served(actions: seq<string>, action: string, verb: string, isVerb: bool)

  function Actions(action: string): seq<string> {
    var lower := ToLower(action);
    if lower == SnakeOf(action) then [lower] else [lower, SnakeOf(action)]
  }

  function ServedBy(name: string): Served {
    if name == "" then Served([], "", "", false)
    else
      var parts := SplitFor(name);
      var last := parts[|parts| - 1];
      if |parts| > 1 && last in VERBS then
        Served(Actions(TrimSuffix(name, FOR + last)), TrimSuffix(name, FOR + last), last, true)
      else Served(Actions(name), name, "", false)
  }

  method GetActionsAndMethod(name: string) returns (actions: seq<string>, verb: string, isVerb: bool)
    ensures actions == ServedBy(name).actions && verb == ServedBy(name).verb && isVerb == ServedBy(name).isVerb
  {
    actions, verb, isVerb := [], "", false;
    if |name| == 0 {
      return;
    }
    var action := name;
    var parts := SplitFor(name);
    if |parts| > 1 {
      verb := parts[|parts| - 1];
      if verb in VERBS {
        isVerb := true;
        action := TrimSuffix(name, FOR + verb);
      } else {
        verb := "";
      }
    }
    actions := actions + [ToLower(action)];
    var snake := Snake(action);
    if actions[0] != snake {
      actions := actions + [snake];
    }
  }

  lemma VerbsAreCapitals(v: string)
    requires v in VERBS
    ensures AllCapitals(v) && v != ""
  {
  }

  lemma VerbStripped(name: string)
    requires name != "" && ServedBy(name).isVerb
    ensures ServedBy(name).verb in VERBS && name == ServedBy(name).action + FOR + ServedBy(name).verb
  {
    LastPart(name);
    var parts := SplitFor(name);
    var last := parts[|parts| - 1];
    SuffixTrimmed(name, FOR + last);
    assert ServedBy(name).action + (FOR + last) == ServedBy(name).action + FOR + last;
  }

  lemma SuffixTrimmed(s: string, t: string)
    requires HasSuffix(s, t)
    ensures s == TrimSuffix(s, t) + t
  {
  }

  lemma VerbSeen(a: string, v: string)
    requires v in VERBS
    ensures var s := ServedBy(a + FOR + v); s.isVerb && s.verb == v && s.action == a
  {
    VerbsAreCapitals(v);
    SplitAtFor(a, v);
    assert a + FOR + v == a + (FOR + v);
    assert TrimSuffix(a + (FOR + v), FOR + v) == a;
  }

  /** A verb is reported exactly when the name ends in "For" and that verb, and then the name is
      the action, "For" and the verb. */
  lemma {:induction false} VerbReported(name: string)
    requires name != ""
    ensures ServedBy(name).isVerb ==>
              ServedBy(name).verb in VERBS && name == ServedBy(name).action + FOR + ServedBy(name).verb
    ensures forall a, v :: v in VERBS && name == a + FOR + v ==>
              ServedBy(name).isVerb && ServedBy(name).verb == v && ServedBy(name).action == a
    ensures !ServedBy(name).isVerb ==> ServedBy(name).action == name
  {
    if ServedBy(name).isVerb {
      VerbStripped(name);
    }
    forall a, v | v in VERBS && name == a + FOR + v
      ensures ServedBy(name).isVerb && ServedBy(name).verb == v && ServedBy(name).action == a
    {
      VerbSeen(a, v);
    }
  }

  /** Every action of a slash-free name is lower-case, slash-free, and one of two forms. */
  lemma {:induction false} ActionsPlain(name: string)
    requires '/' !in name
    ensures forall a :: a in ServedBy(name).actions ==>
              Lowered(a) && '/' !in a && (a == ToLower(ServedBy(name).action) || a == SnakeOf(ServedBy(name).action))
  {
    if name != "" {
      var action := ServedBy(name).action;
      forall i | 0 <= i < |action| ensures action[i] != '/' {
        assert action[i] == name[i] && name[i] in name;
      }
      SnakeChars(action);
      LowerChars(action);
    }
  }

  lemma LowerChars(s: string)
    requires '/' !in s
    ensures Lowered(ToLower(s)) && '/' !in ToLower(s)
  {
    forall i | 0 <= i < |s| ensures ToLower(s)[i] != '/' {
      assert s[i] in s;
    }
  }

  predicate IsVerb(v: string) {
    v in ["OPTIONS", "GET", "HEAD", "POST", "PUT", "DELETE", "TRACE", "CONNECT"]
  }

  /** The name is base, "For" and a verb, or base alone when it ends in no verb. */
  ghost predicate Spells(name: string, base: string, verb: Option<string>) {
    if verb.Some? then IsVerb(verb.value) && name == base + "For" + verb.value
    else name == base && forall a, v :: IsVerb(v) ==> name != a + "For" + v
  }

  lemma SpelledVerb(name: string, base: string, verb: Option<string>)
    requires name != "" && Spells(name, base, verb)
    ensures ServedBy(name).action == base && ServedBy(name).isVerb == verb.Some?
    ensures verb.Some? ==> ServedBy(name).verb == verb.value
  {
    VerbReported(name);
    if ServedBy(name).isVerb {
      VerbsListed(ServedBy(name).verb);
    }
    if verb.Some? {
      VerbsListed(verb.value);
    }
  }

  lemma VerbsListed(v: string)
    ensures IsVerb(v) <==> v in VERBS
  {
  }

  /** A method serves the lower-case form and the snake form of its own name, each once, and
      nothing else. */
  lemma {:induction false} ActionsExactly(name: string, base: string, verb: Option<string>)
    requires name != "" && Spells(name, base, verb)
    ensures var lower, snake := ToLower(base), SnakeOf(base);
            multiset(ServedBy(name).actions) == if lower == snake then multiset{lower} else multiset{lower, snake}
    ensures ServedBy(name).isVerb == verb.Some? && (verb.Some? ==> ServedBy(name).verb == verb.value)
  {
    SpelledVerb(name, base, verb);
  }

  lemma {:induction false} SnakeLength(name: string)
    ensures |SnakeOf(name)| >= |name|
    ensures (|SnakeOf(name)| == |name|) == (forall i :: 1 <= i < |name| ==> !IsUpper(name[i]))
  {
    if name != "" {
      var m := |name| - 1;
      SnakeLength(name[..m]);
      assert forall i :: 1 <= i < m ==> name[..m][i] == name[i];
    }
  }

  lemma {:induction false} SnakeWithoutCapitals(name: string)
    requires forall i :: 1 <= i < |name| ==> !IsUpper(name[i])
    ensures SnakeOf(name) == ToLower(name)
  {
    if name != "" {
      var m := |name| - 1;
      SnakeWithoutCapitals(name[..m]);
      LowerSnoc(name);
    }
  }

  /** The two forms are one exactly when no letter after the first is a capital. */
  lemma {:induction false} OneFormExactly(name: string)
    ensures SnakeOf(name) == ToLower(name) <==> forall i :: 1 <= i < |name| ==> !IsUpper(name[i])
  {
    SnakeLength(name);
    if forall i :: 1 <= i < |name| ==> !IsUpper(name[i]) {
      SnakeWithoutCapitals(name);
    }
  }
}
