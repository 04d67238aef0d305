/** find_and_replace of utils/print-introspected-doxygen.cc for any two strings, and what it does to type names: "::"
    becomes "::%", so that doxygen does not resolve them inside the printed paths. */
module Escaping {

  predicate OccursAt(s: string, find: string, j: nat) {
    j + |find| <= |s| && s[j..j + |find|] == find
  }

  /** source.find (find, from), with |s| + 1 for npos */
  function First(s: string, find: string, from: nat): (j: nat)
    ensures j == |s| + 1 || (from <= j && OccursAt(s, find, j))
    ensures forall k :: from <= k < j ==> !OccursAt(s, find, k)
    decreases |s| + 1 - from
  {
    if from > |s| then |s| + 1
    else if OccursAt(s, find, from) then from
    else First(s, find, from + 1)
  }

  method Find(s: string, find: string, from: nat) returns (j: nat)
    ensures j == First(s, find, from)
  {
    j := from;
    while j <= |s| && !OccursAt(s, find, j)
      invariant First(s, find, from) == First(s, find, j)
    {
      j := j + 1;
    }
    if j > |s| {
      j := |s| + 1;
    }
  }

  // ----- the loop, turn by turn

  /** The string before the next search, which begins at from. */
  datatype Loop = Searching(s: string, from: nat) | Done(s: string)

  function ReplacedAt(s: string, find: string, replace: string, j: nat): string
    requires OccursAt(s, find, j)
  {
    s[..j] + replace + s[j + |find|..]
  }

  function Turn(loop: Loop, find: string, replace: string): Loop {
    if loop.Done? then loop
    else
      var j := First(loop.s, find, loop.from);
      if j == |loop.s| + 1 then Done(loop.s) else Searching(ReplacedAt(loop.s, find, replace, j), j + 1)
  }

  ghost function Turns(source: string, find: string, replace: string, n: nat): Loop {
    if n == 0 then Searching(source, 0) else Turn(Turns(source, find, replace, n - 1), find, replace)
  }

  ghost predicate Occurs(s: string, find: string) {
    exists j :: OccursAt(s, find, j)
  }

  /** The replacement holds what is searched for, behind its first character. */
  ghost predicate Renews(find: string, replace: string) {
    exists k: nat :: k >= 1 && OccursAt(replace, find, k)
  }

  ghost predicate Ends(source: string, find: string, replace: string) {
    exists n :: Turns(source, find, replace, n).Done?
  }

  lemma OccursShifted(s: string, find: string, replace: string, j: nat, k: nat)
    requires OccursAt(s, find, j) && k + |find| <= |replace|
    ensures OccursAt(ReplacedAt(s, find, replace, j), find, j + k) <==> OccursAt(replace, find, k)
  {
    var s' := ReplacedAt(s, find, replace, j);
    assert s'[j + k..j + k + |find|] == replace[k..k + |find|];
  }

  /** Then there is always something left to replace. */
  lemma {:induction false} NeverDone(source: string, find: string, replace: string, n: nat)
    requires Occurs(source, find) && Renews(find, replace)
    ensures var loop := Turns(source, find, replace, n);
            loop.Searching? && exists k :: k >= loop.from && OccursAt(loop.s, find, k)
  {
    hide ReplacedAt;
    if n > 0 {
      NeverDone(source, find, replace, n - 1);
      var loop := Turns(source, find, replace, n - 1);
      var j := First(loop.s, find, loop.from);
      var k: nat :| k >= 1 && OccursAt(replace, find, k);
      OccursShifted(loop.s, find, replace, j, k);
      assert OccursAt(ReplacedAt(loop.s, find, replace, j), find, j + k);
    }
  }

  /** Every occurrence the next search can meet reaches behind end, where the string is still that of the source. */
  ghost predicate Untouched(s: string, find: string, from: nat, end: int) {
    end <= |s| && forall k :: k >= from && OccursAt(s, find, k) ==> k + |find| > end
  }

  /** Replacing moves that part forward, unless the replacement renews the search. */
  lemma Forward(s: string, find: string, replace: string, from: nat, end: int, j: nat)
    requires Untouched(s, find, from, end) && !Renews(find, replace) && j >= from && OccursAt(s, find, j)
    ensures var s' := ReplacedAt(s, find, replace, j);
            Untouched(s', find, j + 1, j + |replace|) && |s'| - (j + |replace|) < |s| - end
  {
    var s' := ReplacedAt(s, find, replace, j);
    forall k | k >= j + 1 && OccursAt(s', find, k) ensures k + |find| > j + |replace| {
      if k + |find| <= j + |replace| {
        OccursShifted(s, find, replace, j, k - j);
      }
    }
  }

  lemma {:induction false} SomeTimeDone(source: string, find: string, replace: string, n: nat, end: int)
    requires var loop := Turns(source, find, replace, n); loop.Searching? && Untouched(loop.s, find, loop.from, end)
    requires !Renews(find, replace)
    ensures Ends(source, find, replace)
    decreases |Turns(source, find, replace, n).s| - end
  {
    hide Untouched, Renews, OccursAt, ReplacedAt;
    var loop := Turns(source, find, replace, n);
    var j := First(loop.s, find, loop.from);
    assert Turns(source, find, replace, n + 1) == Turn(loop, find, replace);
    if j == |loop.s| + 1 {
      assert Turns(source, find, replace, n + 1).Done?;
    } else {
      Forward(loop.s, find, replace, loop.from, end, j);
      SomeTimeDone(source, find, replace, n + 1, j + |replace|);
    }
  }

  /** The loop ends exactly if there is nothing to replace, or the replacement does not hold what is searched for
      behind its first character. */
  lemma EndsIff(source: string, find: string, replace: string)
    ensures Ends(source, find, replace) <==> !Occurs(source, find) || !Renews(find, replace)
  {
    hide Renews;
    if Occurs(source, find) && Renews(find, replace) {
      forall n ensures !Turns(source, find, replace, n).Done? { NeverDone(source, find, replace, n); }
    } else if !Occurs(source, find) {
      assert Turns(source, find, replace, 0) == Searching(source, 0);
      assert Turns(source, find, replace, 1) == Turn(Searching(source, 0), find, replace);
      assert Turns(source, find, replace, 1).Done?;
    } else {
      assert Turns(source, find, replace, 0) == Searching(source, 0);
      assert Untouched(source, find, 0, -1);
      SomeTimeDone(source, find, replace, 0, -1);
    }
  }

  /** Doubling a letter never ends. */
  lemma Doubling()
    ensures !Ends("a", "a", "aa")
  {
    assert OccursAt("a", "a", 0) && OccursAt("aa", "a", 1);
    EndsIff("a", "a", "aa");
  }

  // ----- when the loop is substitution

  /** Every occurrence, from the left and without overlap, replaced. */
  function Substituted(s: string, find: string, replace: string): string
    requires find != ""
  {
    if s == "" then ""
    else if OccursAt(s, find, 0) then replace + Substituted(s[|find|..], find, replace)
    else [s[0]] + Substituted(s[1..], find, replace)
  }

  /** No occurrence can begin inside a replacement, behind its first character, whatever follows it. */
  ghost predicate Clean(find: string, replace: string) {
    && find != "" && replace != ""
    && forall k :: 1 <= k < |replace| ==> Mismatch(find, replace, k)
  }

  ghost predicate Mismatch(find: string, replace: string, k: nat) {
    exists i :: 0 <= i < |find| && k + i < |replace| && replace[k + i] != find[i]
  }

  lemma CleanDoesNotRenew(find: string, replace: string)
    requires Clean(find, replace)
    ensures !Renews(find, replace)
  {
    forall k: nat | 1 <= k < |replace| ensures !OccursAt(replace, find, k) {
      assert Mismatch(find, replace, k);
    }
  }

  lemma NothingInside(s: string, find: string, replace: string, j: nat, k: nat)
    requires Clean(find, replace) && OccursAt(s, find, j) && j < k < j + |replace|
    ensures !OccursAt(ReplacedAt(s, find, replace, j), find, k)
  {
    var s' := ReplacedAt(s, find, replace, j);
    assert Mismatch(find, replace, k - j);
    var i :| 0 <= i < |find| && k - j + i < |replace| && replace[k - j + i] != find[i];
    assert s'[k + i] == replace[k - j + i];
  }

  /** A stretch without occurrences is copied as it is. */
  lemma {:induction false} PlainStretch(s: string, find: string, replace: string, from: nat, to: nat)
    requires find != "" && from <= to <= |s| && forall k :: from <= k < to ==> !OccursAt(s, find, k)
    ensures Substituted(s[from..], find, replace) == s[from..to] + Substituted(s[to..], find, replace)
    decreases |s| - from
  {
    hide OccursAt;
    if from == to {
      assert s[from..to] == "";
    } else {
      PlainStretch(s, find, replace, from + 1, to);
      OccursInSuffix(s, find, from);
      assert s[from..][1..] == s[from + 1..];
      assert s[from..to] == [s[from]] + s[from + 1..to];
    }
  }

  lemma OccursInSuffix(s: string, find: string, from: nat)
    requires from <= |s|
    ensures OccursAt(s[from..], find, 0) <==> OccursAt(s, find, from)
  {
    if from + |find| <= |s| {
      assert s[from..][..|find|] == s[from..from + |find|];
    }
  }

  /** Between two turns: what is before done is final, the rest still to be substituted. */
  ghost predicate HalfDone(source: string, find: string, replace: string, s: string, from: nat, done: nat) {
    && find != ""
    && from <= done <= |s|
    && Substituted(source, find, replace) == s[..done] + Substituted(s[done..], find, replace)
    && forall k :: from <= k < done ==> !OccursAt(s, find, k)
  }

  lemma ReplaceNext(source: string, find: string, replace: string, s: string, from: nat, done: nat, j: nat)
    requires Clean(find, replace) && from <= j && OccursAt(s, find, j) && forall k :: from <= k < j ==> !OccursAt(s, find, k)
    requires HalfDone(source, find, replace, s, from, done)
    ensures HalfDone(source, find, replace, ReplacedAt(s, find, replace, j), j + 1, j + |replace|)
  {
    assert j <= |s|;
    hide OccursAt, Substituted, ReplacedAt, Mismatch;
    var s' := ReplacedAt(s, find, replace, j);
    PlainStretch(s, find, replace, done, j);
    Regroup(s, replace, done, j, Substituted(s'[j + |replace|..], find, replace));
    forall k | j + 1 <= k < j + |replace| ensures !OccursAt(s', find, k) {
      NothingInside(s, find, replace, j, k);
    }
  }

  lemma Regroup(s: string, replace: string, done: nat, j: nat, rest: string)
    requires done <= j <= |s|
    ensures s[..done] + (s[done..j] + (replace + rest)) == s[..j] + replace + rest
  {
  }

  lemma NoMore(source: string, find: string, replace: string, s: string, from: nat, done: nat)
    requires HalfDone(source, find, replace, s, from, done)
    requires forall k :: from <= k <= |s| ==> !OccursAt(s, find, k)
    ensures find != "" && s == Substituted(source, find, replace)
  {
    PlainStretch(s, find, replace, done, |s|);
    assert s[..done] + s[done..|s|] == s && s[|s|..] == "";
  }

  // ----- the method

  lemma LoopBegins(source: string, find: string, replace: string)
    ensures Turns(source, find, replace, 0) == Searching(source, 0)
    ensures Untouched(source, find, 0, -1)
    ensures Clean(find, replace) ==> HalfDone(source, find, replace, source, 0, 0)
    ensures First(source, find, 0) == |source| + 1 <==> !Occurs(source, find)
  {
    assert source[..0] == "" && source[0..] == source;
  }

  lemma NextTurn(source: string, find: string, replace: string, n: nat)
    ensures Turns(source, find, replace, n + 1) == Turn(Turns(source, find, replace, n), find, replace)
  {
  }

  method FindAndReplace(source: string, find: string, replace: string) returns (s: string)
    requires !Occurs(source, find) || !Renews(find, replace)
    ensures exists n :: Turns(source, find, replace, n) == Done(s)
    ensures Clean(find, replace) ==> find != "" && s == Substituted(source, find, replace)
  {
    hide Renews, HalfDone, Untouched, Clean, OccursAt, First, Turns;
    s := source;
    LoopBegins(source, find, replace);
    var j := Find(s, find, 0);
    ghost var n: nat, from: nat, end: int := 0, 0, -1;
    while j != |s| + 1
      invariant j == First(s, find, from)
      invariant Turns(source, find, replace, n) == Searching(s, from)
      invariant Untouched(s, find, from, end)
      invariant j == |s| + 1 || !Renews(find, replace)
      invariant Clean(find, replace) ==> HalfDone(source, find, replace, s, from, if end < 0 then 0 else end)
      invariant end < 0 ==> from == 0
      decreases |s| - end
    {
      Forward(s, find, replace, from, end, j);
      NextTurn(source, find, replace, n);
      if Clean(find, replace) {
        ReplaceNext(source, find, replace, s, from, if end < 0 then 0 else end, j);
      }
      from, end, n := j + 1, j + |replace|, n + 1;
      s := ReplacedAt(s, find, replace, j);
      j := Find(s, find, j + 1);
    }
    NextTurn(source, find, replace, n);
    if Clean(find, replace) {
      NoMore(source, find, replace, s, from, if end < 0 then 0 else end);
    }
  }

  // ----- type names

  predicate ColonsAt(s: string, j: nat) {
    j + 1 < |s| && s[j] == ':' && s[j + 1] == ':'
  }

  /** Every "::", from the left and without overlap, is followed by a '%'. */
  function Escape(s: string): string {
    if s == "" then ""
    else if ColonsAt(s, 0) then "::%" + Escape(s[2..])
    else [s[0]] + Escape(s[1..])
  }

  /** Takes the marks out again. */
  function Unescape(s: string): string {
    if s == "" then ""
    else if ColonsAt(s, 0) && |s| > 2 && s[2] == '%' then "::" + Unescape(s[3..])
    else [s[0]] + Unescape(s[1..])
  }

  /** The replacement contains what is searched for, but at its beginning, where the search does not come back. */
  lemma ColonsAreClean()
    ensures Clean("::", "::%")
  {
    assert "::%"[1 + 1] != "::"[1] && "::%"[2 + 0] != "::"[0];
    assert Mismatch("::", "::%", 1) && Mismatch("::", "::%", 2);
  }

  lemma {:induction false} EscapeIsSubstitution(s: string)
    ensures Substituted(s, "::", "::%") == Escape(s)
  {
    if s != "" {
      assert OccursAt(s, "::", 0) <==> ColonsAt(s, 0);
      EscapeIsSubstitution(s[1..]);
      if ColonsAt(s, 0) {
        EscapeIsSubstitution(s[2..]);
      }
    }
  }

  /** As DoGather calls it: the loop ends, and every "::" is marked. */
  method MarkColons(source: string) returns (s: string)
    ensures s == Escape(source)
  {
    ColonsAreClean();
    CleanDoesNotRenew("::", "::%");
    EscapeIsSubstitution(source);
    s := FindAndReplace(source, "::", "::%");
  }

  /** Marking loses nothing: different names stay different. */
  lemma {:induction false} EscapeRoundTrip(s: string)
    ensures Unescape(Escape(s)) == s
  {
    if s == "" {
    } else if ColonsAt(s, 0) {
      EscapeRoundTrip(s[2..]);
      assert Escape(s)[3..] == Escape(s[2..]);
      assert s == "::" + s[2..];
    } else {
      EscapeRoundTrip(s[1..]);
      assert Escape(s)[1..] == Escape(s[1..]);
      assert s == [s[0]] + s[1..];
      if |s| > 1 {
        assert Escape(s[1..])[0] == s[1];
      }
    }
  }
}
