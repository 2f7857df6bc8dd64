/** cmd/hivy-appd/rotate.go and logs.go: size-rotated log files, and the query that reads their tail. */
module LogStore {
  import opened Prelude
  import opened Strings

  /** Generation 0 is the live file, generation i the file with suffix `.i`. */
  type Generations = map<nat, string>

  function Content(g: Generations, i: nat): string {
    if i in g then g[i] else ""
  }

  /** Generations n to 0, oldest first. */
  function Retained(g: Generations, n: nat): string {
    if n == 0 then Content(g, 0) else Content(g, n) + Retained(g, n - 1)
  }

  predicate IsSuffix(s: string, t: string) {
    |s| <= |t| && t[|t| - |s|..] == s
  }

  predicate Within(g: Generations, keep: nat) {
    forall i :: i in g ==> i <= keep
  }

  /** A rotation keeps at least one generation, whatever it is asked for. */
  function Kept(keep: int): nat {
    if keep < 1 then 1 else keep
  }

  // ----- Rotation -----

  /** What a rotation leaves where generation i was: the next newer one moved up, the live file
      copied to 1 and emptied, and an oldest generation nothing moves onto left alone. */
  function RotatedAt(g: Generations, keep: nat, i: nat): Option<string>
    requires 0 in g && 1 <= keep
  {
    if i == 0 then Some("")
    else if i > keep then if i in g then Some(g[i]) else None
    else if i - 1 in g then Some(g[i - 1])
    else if i == keep && i in g then Some(g[i])
    else None
  }

  function UpTo(n: nat): (s: set<nat>)
    ensures forall i: nat :: i in s <==> i <= n
  {
    if n == 0 then {0} else UpTo(n - 1) + {n}
  }

  function Rotated(g: Generations, keep: nat): Generations
    requires 0 in g && 1 <= keep
  {
    map i | i in g.Keys + UpTo(keep) && RotatedAt(g, keep, i).Some? :: RotatedAt(g, keep, i).value
  }

  /** `g'` reads, generation by generation, as the rotation of `g`. */
  ghost predicate ReadsRotated(g: Generations, keep: nat, g': Generations)
    requires 0 in g && 1 <= keep
  {
    forall i: nat :: Content(g', i) == if RotatedAt(g, keep, i).Some? then RotatedAt(g, keep, i).value else ""
  }

  lemma RotatedReads(g: Generations, keep: nat)
    requires 0 in g && 1 <= keep
    ensures ReadsRotated(g, keep, Rotated(g, keep))
  {
  }

  /** What is left of the retained text: the oldest generation goes exactly if the next one exists. */
  function AfterRotation(g: Generations, keep: nat): string
    requires 1 <= keep
  {
    if keep - 1 in g then Retained(g, keep - 1) else Retained(g, keep)
  }

  lemma EmptyPrefix(s: string)
    ensures "" + s == s && s + "" == s
  {
  }

  lemma {:induction false} RotatedBelow(g: Generations, keep: nat, g': Generations, j: nat)
    requires 0 in g && 1 <= j < keep && ReadsRotated(g, keep, g')
    ensures Retained(g', j) == Retained(g, j - 1)
    decreases j
  {
    assert Content(g', j) == Content(g, j - 1);
    if j > 1 {
      RotatedBelow(g, keep, g', j - 1);
    } else {
      assert Content(g', 0) == "";
      EmptyPrefix(Content(g', 1));
    }
  }

  lemma RotatedRetained(g: Generations, keep: nat, g': Generations)
    requires 0 in g && 1 <= keep && ReadsRotated(g, keep, g')
    ensures Retained(g', keep) == AfterRotation(g, keep)
  {
    if keep == 1 {
      assert Content(g', 0) == "" && Content(g', 1) == g[0];
      EmptyPrefix(Content(g', 1));
    } else {
      RotatedBelow(g, keep, g', keep - 1);
      if keep - 1 in g {
        assert Content(g', keep) == Content(g, keep - 1);
      } else {
        assert Content(g', keep) == Content(g, keep) && Content(g, keep - 1) == "";
        EmptyPrefix(Retained(g, keep - 2));
        assert Retained(g, keep - 1) == Content(g, keep - 1) + Retained(g, keep - 2);
      }
    }
  }

  /** A rotation drops exactly generation `keep`, and only when generation `keep - 1` exists. */
  lemma RotationDrops(g: Generations, keep: nat)
    requires 0 in g && 1 <= keep
    ensures Retained(Rotated(g, keep), keep) == AfterRotation(g, keep)
    ensures Retained(g, keep) == (if keep - 1 in g then Content(g, keep) else "") + AfterRotation(g, keep)
  {
    RotatedReads(g, keep);
    RotatedRetained(g, keep, Rotated(g, keep));
    EmptyPrefix(Retained(g, keep));
  }

  lemma {:induction false} RetainedSame(g: Generations, g': Generations, n: nat)
    requires forall i: nat :: i <= n ==> Content(g, i) == Content(g', i)
    ensures Retained(g, n) == Retained(g', n)
  {
    if n > 0 { RetainedSame(g, g', n - 1); }
  }

  /** Renaming a generation onto a free next place moves no text. */
  lemma {:induction false} MoveKeepsRetained(g: Generations, i: nat, n: nat)
    requires i in g && i >= 1 && i + 1 !in g && i + 1 <= n
    ensures Retained(g[i + 1 := g[i]] - {i}, n) == Retained(g, n)
    decreases n
  {
    var g' := g[i + 1 := g[i]] - {i};
    assert Retained(g', n) == Content(g', n) + Retained(g', n - 1);
    assert Retained(g, n) == Content(g, n) + Retained(g, n - 1);
    if i + 1 < n {
      MoveKeepsRetained(g, i, n - 1);
    } else {
      MoveOntoOldest(g, i);
    }
  }

  /** Renaming the second oldest generation onto the oldest drops that one. */
  lemma MoveOntoOldest(g: Generations, i: nat)
    requires i in g && i >= 1
    ensures Retained(g[i + 1 := g[i]] - {i}, i + 1) == Retained(g, i)
  {
    var g' := g[i + 1 := g[i]] - {i};
    RetainedSame(g, g', i - 1);
    assert Retained(g', i) == Retained(g, i - 1);
  }

  lemma SuffixOfSuffix(s: string, t: string, u: string)
    requires IsSuffix(s, t) && IsSuffix(t, u)
    ensures IsSuffix(s, u)
  {
    assert s == t[|t| - |s|..];
    assert u[|u| - |s|..] == u[|u| - |t|..][|t| - |s|..];
  }

  // ----- Runs -----

  datatype Op = Append(text: string) | Rotate(maxBytes: int)

  /** The log files with everything ever appended to them. */
  datatype State = State(gens: Generations, history: string)

  predicate RotationDue(g: Generations, maxBytes: int) {
    0 in g && |g[0]| >= maxBytes
  }

  function Do(s: State, op: Op, keep: nat): State
    requires 1 <= keep
  {
    match op
    case Append(text) => State(s.gens[0 := Content(s.gens, 0) + text], s.history + text)
    case Rotate(maxBytes) => if RotationDue(s.gens, maxBytes) then s.(gens := Rotated(s.gens, keep)) else s
  }

  function DoAll(s: State, ops: seq<Op>, keep: nat): State
    requires 1 <= keep
    decreases |ops|
  {
    if ops == [] then s else DoAll(Do(s, ops[0], keep), ops[1..], keep)
  }

  ghost predicate StateInv(s: State, keep: nat) {
    Within(s.gens, keep) && IsSuffix(Retained(s.gens, keep), s.history)
  }

  lemma Regrouped(a: string, b: string, c: string)
    ensures a + (b + c) == (a + b) + c
  {
  }

  lemma {:induction false} RetainedAppend(g: Generations, n: nat, text: string)
    ensures Retained(g[0 := Content(g, 0) + text], n) == Retained(g, n) + text
  {
    if n > 0 {
      var more := g[0 := Content(g, 0) + text];
      RetainedAppend(g, n - 1, text);
      assert Retained(more, n) == Content(more, n) + Retained(more, n - 1) && Content(more, n) == Content(g, n);
      Regrouped(Content(g, n), Retained(g, n - 1), text);
    }
  }

  lemma StepKeepsSuffix(s: State, op: Op, keep: nat)
    requires 1 <= keep && StateInv(s, keep)
    ensures StateInv(Do(s, op, keep), keep)
  {
    match op {
      case Append(text) =>
        RetainedAppend(s.gens, keep, text);
        var r := Retained(s.gens, keep);
        assert s.history + text == s.history[..|s.history| - |r|] + (r + text);
      case Rotate(maxBytes) =>
        if RotationDue(s.gens, maxBytes) {
          RotationDrops(s.gens, keep);
          SuffixOfSuffix(AfterRotation(s.gens, keep), Retained(s.gens, keep), s.history);
        }
    }
  }

  /** Over any run of appends and rotations the retained text is the end of all that was appended. */
  lemma {:induction false} RunKeepsSuffix(s: State, ops: seq<Op>, keep: nat)
    requires 1 <= keep && StateInv(s, keep)
    ensures StateInv(DoAll(s, ops, keep), keep)
    decreases |ops|
  {
    if ops != [] {
      StepKeepsSuffix(s, ops[0], keep);
      RunKeepsSuffix(Do(s, ops[0], keep), ops[1..], keep);
    }
  }

  // ----- The query -----

  /** The lines of a file that the query looks at. */
  function Matching(lines: seq<string>, pass: string -> bool): seq<string> {
    if lines == [] then []
    else
      var rest := Matching(lines[1..], pass);
      if lines[0] != "" && pass(lines[0]) then [lines[0]] + rest else rest
  }

  /** The lines at exactly the places that hold a non-blank line passing the filter, in order. */
  lemma {:induction false} MatchingExactly(lines: seq<string>, pass: string -> bool) returns (at: seq<nat>)
    ensures |at| == |Matching(lines, pass)|
    ensures forall p, q :: 0 <= p < q < |at| ==> at[p] < at[q]
    ensures forall p :: 0 <= p < |at| ==> at[p] < |lines| && lines[at[p]] == Matching(lines, pass)[p]
    ensures forall i: nat :: i in at <==> i < |lines| && lines[i] != "" && pass(lines[i])
  {
    if lines == [] {
      return [];
    }
    var n := |lines| - 1;
    var front, last := lines[..n], lines[n];
    at := MatchingExactly(front, pass);
    assert lines == front + [last];
    MatchingAppend(front, [last], pass);
    MatchingOne(last, pass);
    if last != "" && pass(last) {
      at := at + [n];
    }
  }

  lemma MatchingOne(line: string, pass: string -> bool)
    ensures Matching([line], pass) == if line != "" && pass(line) then [line] else []
  {
    assert [line][1..] == [];
  }

  /** Every line of the outcome passes, and as often as it is there. */
  lemma {:induction false} MatchingPasses(lines: seq<string>, pass: string -> bool)
    ensures forall line :: line in Matching(lines, pass) ==> line != "" && pass(line)
    ensures forall line :: multiset(Matching(lines, pass))[line] ==
                             if line != "" && pass(line) then multiset(lines)[line] else 0
  {
    if lines != [] {
      MatchingPasses(lines[1..], pass);
      assert lines == [lines[0]] + lines[1..];
    }
  }

  lemma {:induction false} NewestPass(g: Generations, n: nat, pass: string -> bool)
    ensures forall line :: line in NewestLines(g, n, pass) ==> line != "" && pass(line)
  {
    if n > 0 {
      NewestPass(g, n - 1, pass);
      MatchingPasses(Split(Content(g, n - 1)), pass);
    }
  }

  /** No more lines than asked for, none of them blank, and all of them pass. */
  predicate Passing(lines: seq<string>, limit: int, pass: string -> bool) {
    |lines| <= (if limit <= 0 then 0 else limit) && forall line :: line in lines ==> line != "" && pass(line)
  }

  lemma TailPasses(g: Generations, keep: nat, limit: int, pass: string -> bool)
    ensures Passing(Tail(g, keep, limit, pass), limit, pass)
  {
    NewestPass(g, keep + 1, pass);
    LastIsEnd(NewestLines(g, keep + 1, pass), limit);
  }

  function FileLines(g: Generations, i: nat, pass: string -> bool): seq<string> {
    Matching(Split(Content(g, i)), pass)
  }

  /** The matching lines of generations n - 1 to 0, oldest first. */
  function NewestLines(g: Generations, n: nat, pass: string -> bool): seq<string> {
    if n == 0 then [] else FileLines(g, n - 1, pass) + NewestLines(g, n - 1, pass)
  }

  function Last(s: seq<string>, limit: int): seq<string> {
    if limit <= 0 then [] else if |s| <= limit then s else s[|s| - limit..]
  }

  lemma LastIsEnd(s: seq<string>, limit: int)
    ensures |Last(s, limit)| == if limit <= 0 then 0 else if |s| <= limit then |s| else limit
    ensures s[|s| - |Last(s, limit)|..] == Last(s, limit)
    ensures forall line :: line in Last(s, limit) ==> line in s
  {
  }

  /** What the query is meant to answer: the last matching lines of the whole rotated set. */
  function Tail(g: Generations, keep: nat, limit: int, pass: string -> bool): seq<string> {
    Last(NewestLines(g, keep + 1, pass), limit)
  }

  lemma LastOfConcat(a: seq<string>, b: seq<string>, limit: int)
    ensures |b| <= limit ==> Last(a + b, limit) == Last(a, limit - |b|) + b
    ensures |b| >= limit ==> Last(a + b, limit) == Last(b, limit)
  {
  }

  lemma {:induction false} OlderInFront(g: Generations, n: nat, m: nat, pass: string -> bool) returns (older: seq<string>)
    requires n <= m
    ensures NewestLines(g, m, pass) == older + NewestLines(g, n, pass)
    decreases m
  {
    if n == m {
      older := [];
    } else {
      var nearer := OlderInFront(g, n, m - 1, pass);
      older := FileLines(g, m - 1, pass) + nearer;
      assert older + NewestLines(g, n, pass) == FileLines(g, m - 1, pass) + (nearer + NewestLines(g, n, pass));
    }
  }

  lemma LastOfMore(g: Generations, n: nat, m: nat, limit: int, pass: string -> bool)
    requires n <= m && |NewestLines(g, n, pass)| >= limit
    ensures Last(NewestLines(g, m, pass), limit) == Last(NewestLines(g, n, pass), limit)
    ensures |NewestLines(g, m, pass)| >= limit
  {
    var older := OlderInFront(g, n, m, pass);
    LastOfConcat(older, NewestLines(g, n, pass), limit);
  }

  lemma ShortIsAll(s: seq<string>, limit: int)
    requires |Last(s, limit)| < limit
    ensures |s| < limit && Last(s, limit) == s
  {
  }

  /** Reading one more file, for as many lines as are still wanted. */
  lemma OneMoreFile(g: Generations, i: nat, limit: int, pass: string -> bool)
    requires |Last(NewestLines(g, i, pass), limit)| < limit
    ensures var newer := Last(NewestLines(g, i, pass), limit);
            Last(FileLines(g, i, pass), limit - |newer|) + newer == Last(NewestLines(g, i + 1, pass), limit)
    ensures |NewestLines(g, i, pass)| < limit
  {
    ShortIsAll(NewestLines(g, i, pass), limit);
    LastOfConcat(FileLines(g, i, pass), NewestLines(g, i, pass), limit);
  }

  lemma Settled(g: Generations, i: nat, keep: nat, limit: int, pass: string -> bool)
    requires i <= keep && |Last(NewestLines(g, i, pass), limit)| >= limit
    ensures Last(NewestLines(g, i, pass), limit) == Tail(g, keep, limit, pass)
    ensures forall j: nat :: i <= j <= keep ==> |NewestLines(g, j, pass)| >= limit
  {
    LastOfMore(g, i, keep + 1, limit, pass);
    forall j: nat | i <= j <= keep ensures |NewestLines(g, j, pass)| >= limit {
      LastOfMore(g, i, j, limit, pass);
    }
  }

  lemma {:induction false} MatchingAppend(a: seq<string>, b: seq<string>, pass: string -> bool)
    ensures Matching(a + b, pass) == Matching(a, pass) + Matching(b, pass)
  {
    if a == [] {
      assert a + b == b;
    } else {
      MatchingAppend(a[1..], b, pass);
      assert (a + b)[0] == a[0] && (a + b)[1..] == a[1..] + b;
      if a[0] != "" && pass(a[0]) {
        assert Matching(a, pass) == [a[0]] + Matching(a[1..], pass);
        assert Matching(a + b, pass) == [a[0]] + (Matching(a[1..], pass) + Matching(b, pass));
      }
    }
  }

  lemma NoLines(pass: string -> bool)
    ensures Matching(Split(""), pass) == []
  {
    assert Split("") == [""];
  }

  lemma {:induction false} RotatedLines(g: Generations, keep: nat, g': Generations, n: nat, pass: string -> bool)
    requires 0 in g && n < keep && ReadsRotated(g, keep, g')
    ensures NewestLines(g', n + 1, pass) == NewestLines(g, n, pass)
    decreases n
  {
    if n == 0 {
      NoLines(pass);
      assert Content(g', 0) == "" && NewestLines(g', 0, pass) == [];
    } else {
      RotatedLines(g, keep, g', n - 1, pass);
      assert Content(g', n) == Content(g, n - 1);
    }
  }

  lemma RotatedAllLines(g: Generations, keep: nat, g': Generations, pass: string -> bool)
    requires 0 in g && 1 <= keep && ReadsRotated(g, keep, g')
    ensures NewestLines(g', keep + 1, pass) == NewestLines(g, if keep - 1 in g then keep else keep + 1, pass)
  {
    RotatedLines(g, keep, g', keep - 1, pass);
    if keep - 1 in g {
      assert Content(g', keep) == Content(g, keep - 1);
    } else {
      assert Content(g', keep) == Content(g, keep) && Content(g, keep - 1) == "";
      NoLines(pass);
      assert NewestLines(g, keep, pass) == [] + NewestLines(g, keep - 1, pass);
      assert [] + NewestLines(g, keep - 1, pass) == NewestLines(g, keep - 1, pass);
    }
  }

  /** A rotation changes the answer exactly when it drops lines that the limit still reaches. */
  lemma RotationChangesTail(g: Generations, keep: nat, limit: int, pass: string -> bool)
    requires 0 in g && 1 <= keep
    ensures Tail(Rotated(g, keep), keep, limit, pass) == Tail(g, keep, limit, pass)
            <==> !(keep - 1 in g && FileLines(g, keep, pass) != [] && |NewestLines(g, keep, pass)| < limit)
  {
    RotatedReads(g, keep);
    RotatedAllLines(g, keep, Rotated(g, keep), pass);
    LastGrows(FileLines(g, keep, pass), NewestLines(g, keep, pass), limit);
  }

  lemma LastGrows(a: seq<string>, b: seq<string>, limit: int)
    ensures Last(a + b, limit) == Last(b, limit) <==> a == [] || |b| >= limit
  {
    if a == [] {
      assert a + b == b;
    } else if |b| < limit {
      assert |Last(a + b, limit)| > |b|;
    }
  }

  // ----- Lines across a file boundary -----

  predicate Any(line: string) {
    true
  }

  /** Cutting `a + b` is cutting both and gluing the last piece of `a` to the first of `b`. */
  function Glue(x: seq<string>, y: seq<string>): seq<string>
    requires x != [] && y != []
  {
    x[..|x| - 1] + [x[|x| - 1] + y[0]] + y[1..]
  }

  lemma {:induction false} SplitConcat(a: string, b: string)
    ensures Split(a + b) == Glue(Split(a), Split(b))
  {
    if a == "" {
      assert a + b == b && Split(a) == [""];
      GlueNothing(Split(b));
    } else {
      SplitConcat(a[1..], b);
      assert (a + b)[1..] == a[1..] + b && (a + b)[0] == a[0];
      SplitGlue(a[0], Split(a[1..]), Split(b));
    }
  }

  lemma GlueNothing(y: seq<string>)
    requires y != []
    ensures Glue([""], y) == y
  {
    assert "" + y[0] == y[0];
  }

  /** One character in front of a cut text. */
  function Push(c: char, pieces: seq<string>): seq<string>
    requires pieces != []
  {
    if c == '\n' then [""] + pieces else [[c] + pieces[0]] + pieces[1..]
  }

  lemma SplitGlue(c: char, x: seq<string>, y: seq<string>)
    requires x != [] && y != []
    ensures Push(c, Glue(x, y)) == Glue(Push(c, x), y)
  {
    var last, rest := x[|x| - 1] + y[0], y[1..];
    if c == '\n' {
      assert ([""] + x)[..|x|] == [""] + x[..|x| - 1];
      InFront([""], x[..|x| - 1], [last], rest);
    } else if |x| == 1 {
      assert ([c] + x[0]) + y[0] == [c] + (x[0] + y[0]);
      assert Glue(x, y) == [last] + rest && Glue([[c] + x[0]], y) == [([c] + x[0]) + y[0]] + rest;
    } else {
      var first := [c] + x[0];
      assert x[..|x| - 1] == [x[0]] + x[1..|x| - 1];
      InFront([x[0]], x[1..|x| - 1], [last], rest);
      InFront([first], x[1..|x| - 1], [last], rest);
      assert ([first] + x[1..])[..|x| - 1] == [first] + x[1..|x| - 1];
    }
  }

  lemma InFront(a: seq<string>, b: seq<string>, c: seq<string>, d: seq<string>)
    ensures (a + b) + c + d == a + (b + c + d)
  {
  }

  lemma {:induction false} SplitLast(a: string)
    ensures Split(a)[|Split(a)| - 1] == "" <==> a == "" || a[|a| - 1] == '\n'
    ensures Split(a)[0] == "" <==> a == "" || a[0] == '\n'
  {
    if a != "" {
      SplitLast(a[1..]);
    }
  }

  lemma OneLine(x: string)
    ensures Matching([x], Any) == if x == "" then [] else [x]
  {
    assert Matching([x][1..], Any) == [];
  }

  // ----- The query over one long log -----

  /** No line runs from `a` on into `b`. */
  predicate Whole(a: string, b: string) {
    a == "" || a[|a| - 1] == '\n' || b == "" || b[0] == '\n'
  }

  predicate WholeLines(g: Generations, n: nat) {
    n > 0 ==> WholeLines(g, n - 1) && Whole(Content(g, n), Retained(g, n - 1))
  }

  lemma WholeBoundary(a: string, b: string, pass: string -> bool)
    requires Whole(a, b)
    ensures Matching(Split(a + b), pass) == Matching(Split(a), pass) + Matching(Split(b), pass)
  {
    SplitConcat(a, b);
    SplitLast(a);
    SplitLast(b);
    GlueWhole(Split(a), Split(b), pass);
  }

  /** The lines of two cut texts and of the glued one differ in the pieces at the seam. */
  lemma MatchingAtSeam(sa: seq<string>, sb: seq<string>, pass: string -> bool)
    requires sa != [] && sb != []
    ensures var x, y := sa[|sa| - 1], sb[0];
            var init, rest := Matching(sa[..|sa| - 1], pass), Matching(sb[1..], pass);
            && Matching(sa, pass) == init + Matching([x], pass) && Matching(sb, pass) == Matching([y], pass) + rest
            && Matching(Glue(sa, sb), pass) == init + Matching([x + y], pass) + rest
  {
    var init, rest := sa[..|sa| - 1], sb[1..];
    var x, y := sa[|sa| - 1], sb[0];
    assert sa == init + [x] && sb == [y] + rest;
    MatchingAppend(init, [x], pass);
    MatchingAppend([y], rest, pass);
    MatchingAppend(init + [x + y], rest, pass);
    MatchingAppend(init, [x + y], pass);
  }

  lemma GlueWhole(sa: seq<string>, sb: seq<string>, pass: string -> bool)
    requires sa != [] && sb != [] && (sa[|sa| - 1] == "" || sb[0] == "")
    ensures Matching(Glue(sa, sb), pass) == Matching(sa, pass) + Matching(sb, pass)
  {
    var x, y := sa[|sa| - 1], sb[0];
    MatchingAtSeam(sa, sb, pass);
    BlankIsNoLine(pass);
    if x == "" {
      assert x + y == y;
      Regroup(Matching(sa[..|sa| - 1], pass), [], Matching([y], pass), Matching(sb[1..], pass));
    } else {
      assert x + y == x;
      Regroup(Matching(sa[..|sa| - 1], pass), Matching([x], pass), [], Matching(sb[1..], pass));
    }
  }

  lemma BlankIsNoLine(pass: string -> bool)
    ensures Matching([""], pass) == []
  {
    assert [""][1..] == [];
  }

  lemma Regroup(m: seq<string>, a: seq<string>, b: seq<string>, r: seq<string>)
    ensures (m + a) + (b + r) == (m + (a + b)) + r
    ensures a == [] ==> a + b == b
    ensures b == [] ==> a + b == a
  {
  }

  lemma GlueCount(sa: seq<string>, sb: seq<string>)
    requires sa != [] && sb != []
    ensures |Matching(Glue(sa, sb), Any)| <= |Matching(sa, Any)| + |Matching(sb, Any)|
    ensures |Matching(Glue(sa, sb), Any)| == |Matching(sa, Any)| + |Matching(sb, Any)| ==>
              sa[|sa| - 1] == "" || sb[0] == ""
  {
    var x, y := sa[|sa| - 1], sb[0];
    MatchingAtSeam(sa, sb, Any);
    OneLine(x);
    OneLine(y);
    OneLine(x + y);
  }

  /** Reading file by file sees the lines of the files' concatenation. */
  lemma {:induction false} WholeLinesRead(g: Generations, n: nat, pass: string -> bool)
    requires WholeLines(g, n)
    ensures NewestLines(g, n + 1, pass) == Matching(Split(Retained(g, n)), pass)
  {
    if n == 0 {
      assert NewestLines(g, 0, pass) == [];
    } else {
      WholeLinesRead(g, n - 1, pass);
      WholeBoundary(Content(g, n), Retained(g, n - 1), pass);
    }
  }

  /** Lines read file by file beyond those of the concatenation. */
  function CutLines(g: Generations, n: nat): int {
    |NewestLines(g, n + 1, Any)| - |Matching(Split(Retained(g, n)), Any)|
  }

  lemma CutStep(g: Generations, n: nat)
    requires n > 0
    ensures CutLines(g, n) >= CutLines(g, n - 1)
    ensures CutLines(g, n) == CutLines(g, n - 1) ==> Whole(Content(g, n), Retained(g, n - 1))
  {
    CutCount(Content(g, n), Retained(g, n - 1));
  }

  /** A line cut in two is one line fewer in the concatenation. */
  lemma {:induction false} CutLinesCount(g: Generations, n: nat)
    ensures CutLines(g, n) >= 0 && (CutLines(g, n) == 0 ==> WholeLines(g, n))
  {
    if n == 0 {
      assert NewestLines(g, 0, Any) == [];
    } else {
      CutLinesCount(g, n - 1);
      CutStep(g, n);
    }
  }

  lemma CutCount(a: string, b: string)
    ensures |Matching(Split(a + b), Any)| <= |Matching(Split(a), Any)| + |Matching(Split(b), Any)|
    ensures |Matching(Split(a + b), Any)| == |Matching(Split(a), Any)| + |Matching(Split(b), Any)| ==> Whole(a, b)
  {
    SplitConcat(a, b);
    SplitLast(a);
    SplitLast(b);
    GlueCount(Split(a), Split(b));
  }

  /** Reading file by file sees the lines of the concatenation, whatever the filter. */
  ghost predicate ReadsAsOneLog(g: Generations, keep: nat) {
    forall pass :: NewestLines(g, keep + 1, pass) == Matching(Split(Retained(g, keep)), pass)
  }

  /** The query reads the retained files as one log exactly when no line runs across a file boundary. */
  lemma ReadsAsOneLogExactly(g: Generations, keep: nat)
    ensures ReadsAsOneLog(g, keep) <==> WholeLines(g, keep)
  {
    if WholeLines(g, keep) {
      forall pass ensures NewestLines(g, keep + 1, pass) == Matching(Split(Retained(g, keep)), pass) {
        WholeLinesRead(g, keep, pass);
      }
    }
    if ReadsAsOneLog(g, keep) {
      OneLogMeansWhole(g, keep);
    }
  }

  lemma OneLogMeansWhole(g: Generations, keep: nat)
    requires NewestLines(g, keep + 1, Any) == Matching(Split(Retained(g, keep)), Any)
    ensures WholeLines(g, keep)
  {
    assert CutLines(g, keep) == 0;
    CutLinesCount(g, keep);
  }

  // ----- The query after any run of whole-line appends and rotations -----

  predicate EndsLine(text: string) {
    text == "" || text[|text| - 1] == '\n'
  }

  /** What rotations have dropped of the history so far. */
  function Dropped(s: State, keep: nat): string
    requires IsSuffix(Retained(s.gens, keep), s.history)
  {
    s.history[..|s.history| - |Retained(s.gens, keep)|]
  }

  ghost predicate WholeState(s: State, keep: nat) {
    && StateInv(s, keep) && EndsLine(Dropped(s, keep))
    && forall i :: i in s.gens ==> EndsLine(s.gens[i])
  }

  lemma WholeAppend(s: State, text: string, keep: nat)
    requires 1 <= keep && WholeState(s, keep) && EndsLine(text)
    ensures WholeState(Do(s, Append(text), keep), keep)
  {
    StepKeepsSuffix(s, Append(text), keep);
    RetainedAppend(s.gens, keep, text);
    var r := Retained(s.gens, keep);
    assert s.history == Dropped(s, keep) + r;
    assert Dropped(Do(s, Append(text), keep), keep) == Dropped(s, keep);
  }

  lemma WholeRotate(s: State, maxBytes: int, keep: nat)
    requires 1 <= keep && WholeState(s, keep)
    ensures WholeState(Do(s, Rotate(maxBytes), keep), keep)
  {
    StepKeepsSuffix(s, Rotate(maxBytes), keep);
    if RotationDue(s.gens, maxBytes) {
      var s' := Do(s, Rotate(maxBytes), keep);
      var gone := if keep - 1 in s.gens then Content(s.gens, keep) else "";
      RotationDrops(s.gens, keep);
      DroppedMore(s.history, gone, Retained(s.gens, keep), Retained(s'.gens, keep));
      RotatedFilesWhole(s.gens, keep);
    }
  }

  lemma RotatedFilesWhole(g: Generations, keep: nat)
    requires 0 in g && 1 <= keep && forall i :: i in g ==> EndsLine(g[i])
    ensures forall i :: i in Rotated(g, keep) ==> EndsLine(Rotated(g, keep)[i])
  {
  }

  lemma DroppedMore(history: string, gone: string, before: string, after: string)
    requires IsSuffix(before, history) && before == gone + after
    requires EndsLine(gone) && EndsLine(history[..|history| - |before|])
    ensures EndsLine(history[..|history| - |after|])
  {
    assert history[..|history| - |after|] == history[..|history| - |before|] + gone;
  }

  lemma {:induction false} WholeRun(s: State, ops: seq<Op>, keep: nat)
    requires 1 <= keep && WholeState(s, keep) && forall op :: op in ops && op.Append? ==> EndsLine(op.text)
    ensures WholeState(DoAll(s, ops, keep), keep)
    decreases |ops|
  {
    if ops != [] {
      assert ops[0] in ops;
      match ops[0] {
        case Append(text) => WholeAppend(s, text, keep);
        case Rotate(maxBytes) => WholeRotate(s, maxBytes, keep);
      }
      WholeRun(Do(s, ops[0], keep), ops[1..], keep);
    }
  }

  lemma {:induction false} WholeFiles(g: Generations, n: nat)
    requires forall i :: i in g ==> EndsLine(g[i])
    ensures WholeLines(g, n)
  {
    if n > 0 { WholeFiles(g, n - 1); }
  }

  /** After any run of whole-line appends and rotations the query answers as if there were one log
      that is never rotated, exactly until the limit asks for a matching line that was dropped. */
  lemma QueryAnswersForHistory(ops: seq<Op>, keep: nat, limit: int, pass: string -> bool)
    requires 1 <= keep && forall op :: op in ops && op.Append? ==> EndsLine(op.text)
    ensures var s := DoAll(State(map[], ""), ops, keep);
            && IsSuffix(Retained(s.gens, keep), s.history)
            && (Tail(s.gens, keep, limit, pass) == Last(Matching(Split(s.history), pass), limit)
                <==> Matching(Split(Dropped(s, keep)), pass) == [] || |NewestLines(s.gens, keep + 1, pass)| >= limit)
  {
    EmptyRetained(map[], keep);
    WholeRun(State(map[], ""), ops, keep);
    var s := DoAll(State(map[], ""), ops, keep);
    var r := Retained(s.gens, keep);
    WholeFiles(s.gens, keep);
    WholeLinesRead(s.gens, keep, pass);
    LastOfHistory(s.history, r, limit, pass);
  }

  lemma LastOfHistory(history: string, r: string, limit: int, pass: string -> bool)
    requires IsSuffix(r, history) && EndsLine(history[..|history| - |r|])
    ensures Last(Matching(Split(r), pass), limit) == Last(Matching(Split(history), pass), limit)
            <==> Matching(Split(history[..|history| - |r|]), pass) == [] || |Matching(Split(r), pass)| >= limit
  {
    var dropped := history[..|history| - |r|];
    assert history == dropped + r;
    WholeBoundary(dropped, r, pass);
    LastGrows(Matching(Split(dropped), pass), Matching(Split(r), pass), limit);
  }

  // ----- The files -----

  datatype RotateError = RenameFailed | CopyStopped

  class LogFiles {
    var gens: Generations
    ghost var history: string
    const keep: int

    ghost predicate Valid()
      reads this
    {
      StateInv(State(gens, history), Kept(keep))
    }

    constructor (keep: int)
      ensures Valid() && this.keep == keep && gens == map[] && history == ""
    {
      this.keep := keep;
      gens, history := map[], "";
      new;
      assert Retained(gens, Kept(keep)) == "" by { EmptyRetained(gens, Kept(keep)); }
    }

    /** The app or the daemon appends to the live file. */
    method Append(text: string)
      requires Valid()
      modifies this
      ensures Valid() && State(gens, history) == Do(old(State(gens, history)), Op.Append(text), Kept(keep))
    {
      StepKeepsSuffix(State(gens, history), Op.Append(text), Kept(keep));
      gens := gens[0 := (if 0 in gens then gens[0] else "") + text];
      history := history + text;
    }

    /** `rotateIfNeeded`. After a failed rename the store is still good; after a copy or truncation
        that failed it is but for generation 1, which may be a copy of the live file's start. */
    method RotateIfNeeded(maxBytes: int) returns (r: Result<bool, RotateError>)
      requires Valid()
      modifies this`gens
      ensures r.Ok? ==> Valid() && State(gens, history) == Do(old(State(gens, history)), Rotate(maxBytes), Kept(keep))
                        && (r.value <==> 0 in old(gens) && |old(gens)[0]| >= maxBytes)
      ensures r.Err? ==> RotationDue(old(gens), maxBytes)
      ensures r == Err(RenameFailed) ==> Valid()
      ensures r == Err(RenameFailed) ==>
                Retained(gens, Kept(keep)) in {old(Retained(gens, Kept(keep))), old(AfterRotation(gens, Kept(keep)))}
      ensures r == Err(CopyStopped) ==>
                && 0 in gens && gens[0] == old(gens)[0]
                && exists moved :: Moved(old(gens), moved, Kept(keep), 0) && CopyBegun(moved, gens)
    {
      if 0 !in gens || |gens[0]| < maxBytes {
        return Ok(false);
      }
      ghost var g, k := gens, Kept(keep);
      RotationDrops(g, k);
      StepKeepsSuffix(State(gens, history), Rotate(maxBytes), k);
      var ok := ShiftGenerations();
      if !ok {
        SuffixOfSuffix(AfterRotation(g, k), Retained(g, k), history);
        return Err(RenameFailed);
      }
      ghost var moved := gens;
      ok := CopyAndEmpty();
      if !ok {
        return Err(CopyStopped);
      }
      MovedIsRotated(g, moved, k, gens);
      return Ok(true);
    }

    /** `copyFile` of the live file to generation 1, and its truncation. */
    method CopyAndEmpty() returns (ok: bool)
      requires 0 in gens
      modifies this`gens
      ensures ok ==> gens == old(gens)[1 := old(gens)[0]][0 := ""]
      ensures !ok ==> 0 in gens && gens[0] == old(gens)[0] && CopyBegun(old(gens), gens)
    {
      ok := *;
      if !ok {
        return;
      }
      var live := gens[0];
      assert live[..|live|] == live;
      var copied: nat :| copied <= |live|;
      gens := gens[1 := live[..copied]];
      ok := *;
      if copied < |live| || !ok {
        assert gens - {1} == old(gens) - {1};
        return false;
      }
      gens := gens[0 := ""];
    }

    /** The loop of `rotateIfNeeded`, from generation keep - 1 down to 1. */
    method ShiftGenerations() returns (ok: bool)
      requires 0 in gens && Within(gens, Kept(keep))
      modifies this`gens
      ensures ok ==> Moved(old(gens), gens, Kept(keep), 0)
      ensures 0 in gens && gens[0] == old(gens)[0] && Within(gens, Kept(keep))
      ensures Retained(gens, Kept(keep)) in {old(Retained(gens, Kept(keep))), old(AfterRotation(gens, Kept(keep)))}
    {
      ghost var g, k := gens, Kept(keep);
      var i := keep - 1;
      while i >= 1
        invariant keep < 1 ==> i <= 0
        invariant keep >= 1 ==> 0 <= i <= keep - 1
        invariant Moved(g, gens, k, if keep < 1 then 0 else i)
        invariant Retained(gens, k) == if keep >= 1 && i < k - 1 then AfterRotation(g, k) else Retained(g, k)
      {
        if i in gens {
          ok := *;
          if !ok {
            return;
          }
          MoveUp(g, gens, k, i);
          gens := gens[i + 1 := gens[i]] - {i};
        } else {
          MissingStays(g, gens, k, i);
        }
        i := i - 1;
      }
      return true;
    }

    static method FilterLines(lines: seq<string>, pass: string -> bool) returns (matched: seq<string>)
      ensures matched == Matching(lines, pass)
    {
      matched := [];
      for k := 0 to |lines|
        invariant matched + Matching(lines[k..], pass) == Matching(lines, pass)
      {
        assert lines[k..][1..] == lines[k + 1..];
        if lines[k] != "" && pass(lines[k]) {
          matched := matched + [lines[k]];
        }
      }
    }

    /** `filterFileLines`: the last `limit` matching lines of one file. */
    static method FilterFileLines(g: Generations, i: nat, limit: int, pass: string -> bool) returns (matched: seq<string>)
      requires limit >= 0
      ensures matched == Last(FileLines(g, i, pass), limit)
      ensures Passing(matched, limit, pass)
    {
      if i !in g {
        NoLines(pass);
        return [];
      }
      matched := FilterLines(Split(g[i]), pass);
      MatchingPasses(Split(g[i]), pass);
      LastIsEnd(matched, limit);
      if |matched| > limit {
        matched := matched[|matched| - limit..];
      }
    }

    /** `readLogTail`; reading one of the `unreadable` files is an error, if it comes to that. */
    method ReadLogTail(limit: int, pass: string -> bool, unreadable: set<nat>) returns (r: Result<seq<string>, nat>)
      requires keep >= 0
      ensures r.Ok? ==> r.value == Tail(gens, keep, limit, pass)
      ensures r.Ok? ==> Passing(r.value, limit, pass)
      ensures r.Ok? ==> forall i :: i in unreadable && i <= keep ==> |NewestLines(gens, i, pass)| >= limit
      ensures r.Err? ==> r.error in unreadable && r.error <= keep && |NewestLines(gens, r.error, pass)| < limit
    {
      r := Collect(gens, keep, limit, pass, unreadable);
      TailPasses(gens, keep, limit, pass);
    }

    /** Its loop, newest file first. */
    static method Collect(g: Generations, keep: nat, limit: int, pass: string -> bool, unreadable: set<nat>)
      returns (r: Result<seq<string>, nat>)
      ensures r.Ok? ==> r.value == Tail(g, keep, limit, pass)
      ensures r.Ok? ==> forall i :: i in unreadable && i <= keep ==> |NewestLines(g, i, pass)| >= limit
      ensures r.Err? ==> r.error in unreadable && r.error <= keep && |NewestLines(g, r.error, pass)| < limit
    {
      var collected: seq<string>, i := [], 0;
      while i <= keep && |collected| < limit
        invariant 0 <= i <= keep + 1 && collected == Last(NewestLines(g, i, pass), limit)
        invariant forall j :: 0 <= j < i ==> j !in unreadable
      {
        OneMoreFile(g, i, limit, pass);
        if i in unreadable {
          return Err(i);
        }
        var matched := FilterFileLines(g, i, limit - |collected|, pass);
        collected := matched + collected;
        i := i + 1;
      }
      if i <= keep {
        Settled(g, i, keep, limit, pass);
      }
      return Ok(collected);
    }
  }

  lemma {:induction false} EmptyRetained(g: Generations, n: nat)
    requires g == map[]
    ensures Retained(g, n) == ""
  {
    if n > 0 { EmptyRetained(g, n - 1); }
  }

  /** The shifting loop of a rotation, before it looks at generation i. */
  ghost predicate Moved(g: Generations, g': Generations, keep: nat, i: int)
    requires 0 in g && 1 <= keep
  {
    if i >= keep - 1 then g' == g
    else
      && (forall j: nat :: j <= i || j > keep ==> (j in g' <==> j in g) && (j in g ==> g'[j] == g[j]))
      && i + 1 !in g'
      && (forall j: nat :: i + 1 < j <= keep ==>
            (j in g' <==> RotatedAt(g, keep, j).Some?) && (j in g' ==> g'[j] == RotatedAt(g, keep, j).value))
  }

  /** That loop passes over a generation that is not there. */
  lemma MissingStays(g: Generations, g': Generations, keep: nat, i: nat)
    requires 0 in g && 1 <= i < keep && Moved(g, g', keep, i) && i !in g'
    ensures Moved(g, g', keep, i - 1)
    ensures i == keep - 1 ==> AfterRotation(g, keep) == Retained(g, keep)
  {
    forall j: nat | i < j <= keep
      ensures (j in g' <==> RotatedAt(g, keep, j).Some?) && (j in g' ==> g'[j] == RotatedAt(g, keep, j).value)
    {
      if i == keep - 1 {
        assert j == keep && g' == g;
      }
    }
  }

  /** One rename of that loop. */
  lemma MoveUp(g: Generations, g': Generations, keep: nat, i: nat)
    requires 0 in g && 1 <= i < keep && Moved(g, g', keep, i) && i in g'
    requires Retained(g', keep) == if i < keep - 1 then AfterRotation(g, keep) else Retained(g, keep)
    ensures Moved(g, g'[i + 1 := g'[i]] - {i}, keep, i - 1)
    ensures Retained(g'[i + 1 := g'[i]] - {i}, keep) == AfterRotation(g, keep)
  {
    if i == keep - 1 {
      MoveOntoOldest(g', i);
    } else {
      MoveKeepsRetained(g', i, keep);
    }
  }

  /** A copy of the live file that failed before its target was opened, or after. */
  predicate CopyBegun(moved: Generations, g: Generations) {
    g == moved || (1 in g && 0 in g && g[1] <= g[0] && g - {1} == moved - {1})
  }

  /** Copying and emptying the live file completes the rotation. */
  lemma MovedIsRotated(g: Generations, moved: Generations, keep: nat, g': Generations)
    requires 0 in g && 1 <= keep && Moved(g, moved, keep, 0)
    requires g' == moved[1 := g[0]][0 := ""]
    ensures g' == Rotated(g, keep)
  {
    forall j: nat ensures j in g' <==> j in Rotated(g, keep) {}
  }
}
