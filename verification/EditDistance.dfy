/**
 Suggesting a command for a mistyped one: the two-row edit distance, and what the
 number it returns is, the length of a shortest chain of single edits.
 */
module EditDistance {

  // ---- the definition -----------------------------------------------------

  function DropLast(s: string): string
    requires s != ""
  {
    s[..|s| - 1]
  }

  function Last(s: string): char
    requires s != ""
  {
    s[|s| - 1]
  }

  function Min(x: int, y: int): int {
    if x <= y then x else y
  }

  function Cost(x: char, y: char): int {
    if x == y then 0 else 1
  }

  /** The recurrence behind the rows. */
  function Dist(a: string, b: string): (d: nat)
    decreases |a| + |b|
  {
    if a == "" then |b|
    else if b == "" then |a|
    else
      Min(Min(Dist(DropLast(a), b) + 1, Dist(a, DropLast(b)) + 1),
          Dist(DropLast(a), DropLast(b)) + Cost(Last(a), Last(b)))
  }

  // ---- the two-row program ------------------------------------------------

  /** The first `n` cells of the row for `a`. */
  ghost predicate Row(row: seq<int>, a: string, b: string, n: nat) {
    n <= |row| && n <= |b| + 1 && forall k :: 0 <= k < n ==> row[k] == Dist(a, b[..k])
  }

  lemma FirstCell(a: string, b: string)
    ensures Dist(a, b[..0]) == |a|
  {
  }

  lemma FirstRow(b: string, row: seq<int>)
    requires |row| == |b| + 1 && forall k :: 0 <= k <= |b| ==> row[k] == k
    ensures Row(row, "", b, |b| + 1)
  {
  }

  /** One more cell, from its three neighbours. */
  lemma NextCell(prev: seq<int>, cur: seq<int>, a: string, b: string, j: nat, cell: int)
    requires a != "" && 1 <= j <= |b| && Row(prev, DropLast(a), b, |b| + 1) && Row(cur, a, b, j) && j < |cur|
    requires cell == Min(Min(prev[j] + 1, cur[j - 1] + 1), prev[j - 1] + Cost(Last(a), b[j - 1]))
    ensures Row(cur[j := cell], a, b, j + 1)
  {
    assert DropLast(b[..j]) == b[..j - 1] && Last(b[..j]) == b[j - 1];
    assert cell == Dist(a, b[..j]);
  }

  method CommandDistance(a: string, b: string) returns (d: int)
    ensures d == Dist(a, b)
  {
    var prev := new int[|b| + 1];
    for j := 0 to |b| + 1
      invariant forall k :: 0 <= k < j ==> prev[k] == k
    {
      prev[j] := j;
    }
    FirstRow(b, prev[..]);
    assert a[..0] == "";
    for i := 1 to |a| + 1
      invariant prev.Length == |b| + 1 && fresh(prev) && Row(prev[..], a[..i - 1], b, |b| + 1)
    {
      var cur := new int[|b| + 1];
      cur[0] := i;
      assert DropLast(a[..i]) == a[..i - 1];
      FirstCell(a[..i], b);
      for j := 1 to |b| + 1
        invariant Row(prev[..], a[..i - 1], b, |b| + 1) && Row(cur[..], a[..i], b, j)
      {
        var cost := 1;
        if a[i - 1] == b[j - 1] {
          cost := 0;
        }
        var cell := Min(Min(prev[j] + 1, cur[j - 1] + 1), prev[j - 1] + cost);
        NextCell(prev[..], cur[..], a[..i], b, j, cell);
        ghost var row := cur[..];
        cur[j] := cell;
        assert cur[..] == row[j := cell];
      }
      prev := cur;
    }
    assert a[..|a|] == a && b[..|b|] == b;
    return prev[|b|];
  }

  // ---- edit scripts -------------------------------------------------------

  predicate InsertedAt(a: string, b: string, i: int) {
    0 <= i < |b| && a == b[..i] + b[i + 1..]
  }

  predicate ReplacedAt(a: string, b: string, i: int) {
    0 <= i < |a| == |b| && b == a[..i] + [b[i]] + a[i + 1..]
  }

  ghost predicate Inserted(a: string, b: string) {
    exists i :: InsertedAt(a, b, i)
  }

  ghost predicate Replaced(a: string, b: string) {
    exists i :: ReplacedAt(a, b, i)
  }

  /** One character inserted, deleted or replaced. */
  ghost predicate OneEdit(a: string, b: string) {
    Inserted(a, b) || Inserted(b, a) || Replaced(a, b)
  }

  /** A chain of edits, written as the strings it passes through. */
  ghost predicate Script(p: seq<string>, a: string, b: string) {
    && p != [] && p[0] == a && p[|p| - 1] == b
    && forall i {:trigger p[i]} :: 0 <= i < |p| - 1 ==> OneEdit(p[i], p[i + 1])
  }

  // ---- Dist is a metric ---------------------------------------------------

  /** Each way of shortening the arguments bounds the distance, at the edges too. */
  lemma Shorten(a: string, b: string)
    ensures a != "" ==> Dist(a, b) <= Dist(DropLast(a), b) + 1
    ensures b != "" ==> Dist(a, b) <= Dist(a, DropLast(b)) + 1
    ensures a != "" && b != "" ==> Dist(a, b) <= Dist(DropLast(a), DropLast(b)) + Cost(Last(a), Last(b))
  {
  }

  lemma {:induction false} DistSymmetric(a: string, b: string)
    ensures Dist(a, b) == Dist(b, a)
    decreases |a| + |b|
  {
    if a != "" && b != "" {
      DistSymmetric(DropLast(a), b);
      DistSymmetric(a, DropLast(b));
      DistSymmetric(DropLast(a), DropLast(b));
    }
  }

  lemma {:induction false} DistSelf(a: string)
    ensures Dist(a, a) == 0
    decreases |a|
  {
    if a != "" {
      DistSelf(DropLast(a));
    }
  }

  lemma {:induction false} DistZero(a: string, b: string)
    requires Dist(a, b) == 0
    ensures a == b
    decreases |a|
  {
    if a != "" && b != "" {
      DistZero(DropLast(a), DropLast(b));
      assert a == DropLast(a) + [Last(a)] && b == DropLast(b) + [Last(b)];
    }
  }

  lemma {:induction false} Triangle(a: string, b: string, c: string)
    ensures Dist(a, c) <= Dist(a, b) + Dist(b, c)
    decreases |a| + |b| + |c|
  {
    Shorten(a, c);
    if a != "" && Dist(a, b) == Dist(DropLast(a), b) + 1 {
      Triangle(DropLast(a), b, c);
    } else if c != "" && Dist(b, c) == Dist(b, DropLast(c)) + 1 {
      Triangle(a, b, DropLast(c));
    } else if b != "" {
      var b' := DropLast(b);
      var first, second := Dist(a, b) == Dist(a, b') + 1, Dist(b, c) == Dist(b', c) + 1;
      if first && second {
        Triangle(a, b', c);
      } else if first {
        Triangle(a, b', DropLast(c));
      } else if second {
        Triangle(DropLast(a), b', c);
      } else {
        Triangle(DropLast(a), b', DropLast(c));
      }
    }
  }

  lemma {:induction false} SuffixKeeps(a: string, b: string, s: string)
    ensures Dist(a + s, b + s) <= Dist(a, b)
    decreases |s|
  {
    if s == "" {
      assert a + s == a && b + s == b;
    } else {
      SuffixKeeps(a, b, DropLast(s));
      assert DropLast(a + s) == a + DropLast(s) && DropLast(b + s) == b + DropLast(s);
      Shorten(a + s, b + s);
    }
  }

  /** One edit costs at most one. */
  lemma OneEditDist(a: string, b: string)
    requires OneEdit(a, b)
    ensures Dist(a, b) <= 1
  {
    if Inserted(a, b) {
      InsertedDist(a, b);
    } else if Inserted(b, a) {
      InsertedDist(b, a);
      DistSymmetric(a, b);
    } else {
      ReplacedDist(a, b);
    }
  }

  lemma ReplacedDist(a: string, b: string)
    requires Replaced(a, b)
    ensures Dist(a, b) <= 1
  {
    var i :| ReplacedAt(a, b, i);
    var x, y, tail := a[..i] + [a[i]], a[..i] + [b[i]], a[i + 1..];
    LastReplaced(a[..i], a[i], b[i]);
    SuffixKeeps(x, y, tail);
    assert a == x + tail;
  }

  lemma LastReplaced(s: string, x: char, y: char)
    ensures Dist(s + [x], s + [y]) <= 1
  {
    DistSelf(s);
    Shorten(s + [x], s + [y]);
    assert DropLast(s + [x]) == s == DropLast(s + [y]);
  }

  lemma InsertedDist(a: string, b: string)
    requires Inserted(a, b)
    ensures Dist(a, b) <= 1
  {
    var i :| InsertedAt(a, b, i);
    LastInserted(b[..i], b[i]);
    SuffixKeeps(b[..i], b[..i] + [b[i]], b[i + 1..]);
    assert b == b[..i] + [b[i]] + b[i + 1..];
  }

  lemma LastInserted(s: string, x: char)
    ensures Dist(s, s + [x]) <= 1
  {
    DistSelf(s);
    Shorten(s, s + [x]);
    assert DropLast(s + [x]) == s;
  }

  /** No script is shorter than the distance. */
  lemma {:induction false} ScriptsAreLonger(p: seq<string>, a: string, b: string)
    requires Script(p, a, b)
    ensures |p| - 1 >= Dist(a, b)
    decreases |p|
  {
    if |p| == 1 {
      DistSelf(a);
    } else {
      var rest := p[1..];
      assert forall i {:trigger rest[i]} :: 0 <= i < |rest| ==> rest[i] == p[i + 1];
      assert Script(rest, p[1], b);
      ScriptsAreLonger(rest, p[1], b);
      OneEditDist(a, p[1]);
      Triangle(a, p[1], b);
    }
  }

  // ---- a shortest script --------------------------------------------------

  function AppendTo(p: seq<string>, c: char): (r: seq<string>)
    ensures |r| == |p| && forall i :: 0 <= i < |p| ==> r[i] == p[i] + [c]
  {
    seq(|p|, i requires 0 <= i < |p| => p[i] + [c])
  }

  lemma EditUnderAppend(a: string, b: string, c: char)
    requires OneEdit(a, b)
    ensures OneEdit(a + [c], b + [c])
  {
    if Inserted(a, b) {
      InsertedUnderAppend(a, b, c);
    } else if Inserted(b, a) {
      InsertedUnderAppend(b, a, c);
    } else {
      var i :| ReplacedAt(a, b, i);
      var x, y := a + [c], b + [c];
      assert x[..i] == a[..i] && x[i + 1..] == a[i + 1..] + [c] && y[i] == b[i];
      assert ReplacedAt(x, y, i);
    }
  }

  lemma InsertedUnderAppend(a: string, b: string, c: char)
    requires Inserted(a, b)
    ensures Inserted(a + [c], b + [c])
  {
    var i :| InsertedAt(a, b, i);
    var y := b + [c];
    assert y[..i] == b[..i] && y[i + 1..] == b[i + 1..] + [c];
    assert InsertedAt(a + [c], y, i);
  }

  lemma ScriptUnderAppend(p: seq<string>, a: string, b: string, c: char)
    requires Script(p, a, b)
    ensures Script(AppendTo(p, c), a + [c], b + [c])
  {
    var q := AppendTo(p, c);
    forall i {:trigger q[i]} | 0 <= i < |q| - 1
      ensures OneEdit(q[i], q[i + 1])
    {
      assert OneEdit(p[i], p[i + 1]);
      EditUnderAppend(p[i], p[i + 1], c);
    }
  }

  lemma ScriptThen(p: seq<string>, a: string, b: string, c: string)
    requires Script(p, a, b) && OneEdit(b, c)
    ensures Script(p + [c], a, c)
  {
    var q := p + [c];
    assert forall i {:trigger q[i]} :: 0 <= i < |p| ==> q[i] == p[i];
  }

  lemma ThenScript(a: string, p: seq<string>, b: string, c: string)
    requires OneEdit(a, b) && Script(p, b, c)
    ensures Script([a] + p, a, c)
  {
    var q := [a] + p;
    forall i {:trigger q[i]} | 0 <= i < |q| - 1
      ensures OneEdit(q[i], q[i + 1])
    {
      if i > 0 {
        assert q[i] == p[i - 1] && q[i + 1] == p[i];
      }
    }
  }

  lemma DropIsEdit(a: string)
    requires a != ""
    ensures OneEdit(a, DropLast(a)) && OneEdit(DropLast(a), a)
  {
    assert InsertedAt(DropLast(a), a, |a| - 1);
  }

  /** Some script is as short as the distance. */
  lemma {:induction false} ShortestScript(a: string, b: string) returns (p: seq<string>)
    ensures Script(p, a, b) && |p| - 1 == Dist(a, b)
    decreases |a| + |b|
  {
    if a == "" && b == "" {
      p := [a];
    } else if a != "" && Dist(a, b) == Dist(DropLast(a), b) + 1 {
      p := ShortestScript(DropLast(a), b);
      DropIsEdit(a);
      ThenScript(a, p, DropLast(a), b);
      p := [a] + p;
    } else if b != "" && Dist(a, b) == Dist(a, DropLast(b)) + 1 {
      p := ShortestScript(a, DropLast(b));
      DropIsEdit(b);
      ScriptThen(p, a, DropLast(b), b);
      p := p + [b];
    } else {
      var a', b', x, y := DropLast(a), DropLast(b), Last(a), Last(b);
      assert a == a' + [x] && b == b' + [y];
      p := ShortestScript(a', b');
      ScriptUnderAppend(p, a', b', x);
      p := AppendTo(p, x);
      if x != y {
        ReplaceLast(b', x, y);
        ScriptThen(p, a, b' + [x], b);
        p := p + [b];
      }
    }
  }

  lemma ReplaceLast(s: string, x: char, y: char)
    ensures OneEdit(s + [x], s + [y])
  {
    var a, b, i := s + [x], s + [y], |s|;
    assert a[..i] == s && a[i + 1..] == "" && b[i] == y;
    assert ReplacedAt(a, b, i);
  }

  /** The returned number is the length of a shortest script: some script has that
      many edits, and every script has at least that many. */
  lemma DistIsMinimal(a: string, b: string)
    ensures exists p :: Script(p, a, b) && |p| - 1 == Dist(a, b)
    ensures forall p :: Script(p, a, b) ==> |p| - 1 >= Dist(a, b)
  {
    var shortest := ShortestScript(a, b);
    forall p | Script(p, a, b)
      ensures |p| - 1 >= Dist(a, b)
    {
      ScriptsAreLonger(p, a, b);
    }
  }

  // ---- the suggestion -----------------------------------------------------

  const COMMANDS: seq<string> :=
    ["build", "check", "generate", "watch", "mock", "init", "import", "compat", "version", "help"]

  const ALIASES: map<string, string> :=
    map["lint" := "check", "validate" := "check", "gen" := "generate", "serve" := "mock", "new" := "init"]

  /** A prefix of two letters or more counts as an exact match. */
  function Score(input: string, name: string): nat {
    if input <= name && |input| >= 2 then 0 else Dist(input, name)
  }

  /** An alias, else the first command nearest to the input if it is within two
      edits, else nothing. */
  method SuggestCommand(input: string) returns (best: string)
    ensures input in ALIASES ==> best == ALIASES[input]
    ensures input !in ALIASES && best == "" ==> forall name <- COMMANDS :: Score(input, name) > 2
    ensures input !in ALIASES && best != "" ==>
              exists k :: 0 <= k < |COMMANDS| && best == COMMANDS[k] && Score(input, best) <= 2
                          && (forall j :: 0 <= j < |COMMANDS| ==> Score(input, COMMANDS[j]) >= Score(input, best))
                          && (forall j :: 0 <= j < k ==> Score(input, COMMANDS[j]) > Score(input, best))
  {
    if input in ALIASES {
      return ALIASES[input];
    }
    var bestScore := 3;
    best := "";
    ghost var at := 0;
    for i := 0 to |COMMANDS|
      invariant bestScore <= 3 && (best == "" <==> bestScore == 3)
      invariant forall j :: 0 <= j < i ==> Score(input, COMMANDS[j]) >= bestScore
      invariant best != "" ==> at < i && best == COMMANDS[at] && Score(input, best) == bestScore
      invariant best != "" ==> forall j :: 0 <= j < at ==> Score(input, COMMANDS[j]) > bestScore
    {
      var name := COMMANDS[i];
      var score := CommandDistance(input, name);
      if input <= name && |input| >= 2 {
        score := 0;
      }
      if score < bestScore {
        best, bestScore := name, score;
        at := i;
      }
    }
  }
}
