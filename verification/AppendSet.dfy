/**
 The generator's two searches: `appendable`, a memoised fixpoint over everything
 below a message, and `pullAppendChildren`, a worklist over one file.
 */
module AppendSet {

  import opened AppendGraph

  class Printer {
    const g: Graph
    var appendMemo: map<Msg, bool>
    var appendPulled: set<Msg>

    constructor (g: Graph)
      requires g.WellFormed()
      ensures Valid() && this.g == g
    {
      this.g := g;
      appendMemo := map[];
      appendPulled := {};
    }

    /** The memo is right about every message in it, whichever root stored it. */
    ghost predicate Valid()
      reads this
    {
      g.WellFormed() && forall m <- appendMemo :: appendMemo[m] <==> g.Appendable(m)
    }

    /** Depth-first search below `n`; what it adds is closed under local children. */
    method Visit(n: Msg, nodes: seq<Msg>) returns (r: seq<Msg>)
      requires g.WellFormed() && n in g.children
      ensures nodes <= r && (g.Local(n) ==> n in r)
      ensures forall x <- r[|nodes|..] :: g.Local(x)
      ensures forall x, c :: x in r[|nodes|..] && g.Child(x, c) && g.Local(c) ==> c in r
      decreases g.children.Keys - Elements(nodes)
    {
      r := nodes;
      if n in nodes || n in g.external {
        return;
      }
      r := r + [n];
      var children := g.children[n];
      for i := 0 to |children|
        invariant nodes + [n] <= r && n in r
        invariant forall x <- r[|nodes|..] :: g.Local(x)
        invariant forall x, c :: x in r[|nodes| + 1..] && g.Child(x, c) && g.Local(c) ==> c in r
        invariant forall j :: 0 <= j < i ==> g.Local(children[j]) ==> children[j] in r
      {
        ghost var before := r;
        assert g.Child(n, children[i]);
        assert n in g.children.Keys - Elements(nodes) && n !in g.children.Keys - Elements(before);
        r := Visit(children[i], r);
        Grown(nodes, n, before, r);
      }
      assert r[|nodes|..] == [n] + r[|nodes| + 1..];
    }

    /** The eligible messages among `nodes` that a custom one lies below. */
    method Fixpoint(nodes: seq<Msg>) returns (marked: set<Msg>)
      requires g.WellFormed() && forall n <- nodes :: g.Local(n)
      ensures forall m <- marked :: g.Appendable(m)
      ensures forall n <- nodes :: g.Seed(n) ==> n in marked
      ensures forall n <- nodes, c :: g.Eligible(n) && g.Child(n, c) && c in marked ==> n in marked
    {
      marked := {};
      for i := 0 to |nodes|
        invariant forall m <- marked :: m in nodes && g.Appendable(m)
        invariant forall j :: 0 <= j < i ==> g.Seed(nodes[j]) ==> nodes[j] in marked
      {
        if g.Eligible(nodes[i]) && g.NeedsCustom(nodes[i]) {
          g.SeedIsAppendable(nodes[i]);
          marked := marked + {nodes[i]};
        }
      }
      var changed := true;
      ghost var all := Elements(nodes);
      while changed
        invariant marked <= all && forall m <- marked :: g.Appendable(m)
        invariant forall n <- nodes :: g.Seed(n) ==> n in marked
        invariant !changed ==> forall n <- nodes, c :: g.Eligible(n) && g.Child(n, c) && c in marked ==> n in marked
        decreases all - marked, changed
      {
        changed := false;
        ghost var start := marked;
        for i := 0 to |nodes|
          invariant start <= marked <= all && (changed <==> marked != start)
          invariant forall m <- marked :: g.Appendable(m)
          invariant !changed ==> forall j, c :: 0 <= j < i && g.Eligible(nodes[j]) && g.Child(nodes[j], c) && c in marked ==> nodes[j] in marked
        {
          var n := nodes[i];
          assert g.Local(n);
          if n !in marked && g.Eligible(n) {
            var below := AnyMarked(g.children[n], marked);
            if below {
              var c :| c in g.children[n] && c in marked;
              g.ParentIsAppendable(n, c);
              marked := marked + {n};
              changed := true;
            }
          }
        }
      }
    }

    method AnyMarked(children: seq<Msg>, marked: set<Msg>) returns (any: bool)
      ensures any <==> exists c :: c in children && c in marked
    {
      for i := 0 to |children|
        invariant forall j :: 0 <= j < i ==> children[j] !in marked
      {
        if children[i] in marked {
          return true;
        }
      }
      return false;
    }

    /** Whether `m` gets AppendJSON by the fixpoint, remembering the answer for
        everything the search passed through. */
    method Appendable(m: Msg) returns (r: bool)
      requires Valid() && m in g.children
      modifies `appendMemo
      ensures Valid() && appendMemo.Keys >= old(appendMemo.Keys)
      ensures r <==> g.Appendable(m)
    {
      if m in g.external {
        if g.Appendable(m) {
          OnlyLocal(g, m);
        }
        return false;
      }
      if m in appendMemo {
        return appendMemo[m];
      }
      var nodes := Visit(m, []);
      assert nodes[0..] == nodes;
      var marked := Fixpoint(nodes);
      forall n | n in nodes
        ensures n in marked <==> g.Appendable(n)
      {
        if g.Appendable(n) {
          var p :| g.SeedPath(p) && p[0] == n;
          PathMarked(g, nodes, marked, p);
        }
      }
      for i := 0 to |nodes|
        invariant Valid() && appendMemo.Keys >= old(appendMemo.Keys)
      {
        appendMemo := appendMemo[nodes[i] := nodes[i] in marked];
      }
      r := m in marked;
    }

    /** Whether `c` should join the worklist: a candidate not there yet. */
    method ShouldPull(file: File, c: Msg) returns (r: bool)
      requires Valid() && c in g.children
      modifies `appendMemo
      ensures Valid() && (r <==> Pull(g, file).Candidate(c) && c !in appendPulled)
    {
      if c !in file.messages || c in g.external {
        return false;
      }
      var done := Appendable(c);
      r := !done && c !in appendPulled && g.Eligible(c);
    }

    /** Fills `appendPulled` for one file. */
    method PullAppendChildren(file: File, roots: seq<Msg>, wire: seq<Msg>)
      requires Valid() && (set m <- roots) == file.messages && (set m <- wire) == file.wire
      requires file.messages <= g.children.Keys && file.wire <= g.children.Keys
      modifies this
      ensures Valid() && forall m :: m in appendPulled <==> Pull(g, file).Pulled(m)
    {
      ghost var pull := Pull(g, file);
      appendPulled := {};
      var queue: seq<Msg> := [];
      for i := 0 to |roots|
        invariant Valid() && appendPulled == {}
        invariant forall m <- queue :: m in file.messages && g.Appendable(m)
        invariant forall j :: 0 <= j < i && g.Appendable(roots[j]) ==> roots[j] in queue
      {
        var a := Appendable(roots[i]);
        if a {
          queue := queue + [roots[i]];
        }
      }
      assert forall m | m in file.messages && g.Appendable(m) :: m in queue;
      for i := 0 to |wire|
        invariant Valid() && (forall m <- appendPulled :: pull.Pulled(m) && m in queue)
        invariant forall m <- queue :: Source(pull, appendPulled, m)
        invariant forall m | m in file.messages && g.Appendable(m) :: m in queue
        invariant forall j :: 0 <= j < i && pull.Candidate(wire[j]) ==> wire[j] in appendPulled
      {
        var add := ShouldPull(file, wire[i]);
        if add {
          pull.WireIsPulled(wire[i]);
          appendPulled := appendPulled + {wire[i]};
          queue := queue + [wire[i]];
        }
      }
      Drain(file, queue);
      forall m | pull.Pulled(m)
        ensures m in appendPulled
      {
        var p :| pull.PullPath(p) && p[|p| - 1] == m;
        pull.PulledIsLeast(appendPulled, p);
      }
    }

    /** The worklist loop: afterwards every source's candidates have been pulled. */
    method Drain(file: File, work: seq<Msg>)
      requires Valid() && (forall m <- appendPulled :: Pull(g, file).Pulled(m) && m in work)
      requires forall m <- work :: Source(Pull(g, file), appendPulled, m)
      requires forall m | m in file.messages && g.Appendable(m) :: m in work
      modifies this
      ensures Valid() && appendPulled >= old(appendPulled) && forall m <- appendPulled :: Pull(g, file).Pulled(m)
      ensures forall m, c | Source(Pull(g, file), appendPulled, m) && g.Child(m, c) && Pull(g, file).Candidate(c) :: c in appendPulled
    {
      ghost var pull := Pull(g, file);
      var queue := work;
      while |queue| > 0
        invariant Valid() && appendPulled >= old(appendPulled) && forall m <- appendPulled :: pull.Pulled(m)
        invariant forall m <- queue :: Source(pull, appendPulled, m)
        invariant forall m, c | Source(pull, appendPulled, m) && m !in queue && g.Child(m, c) && pull.Candidate(c) :: c in appendPulled
        decreases g.children.Keys - appendPulled, |queue|
      {
        var m := queue[0];
        assert m in queue && Source(pull, appendPulled, m);
        if g.Appendable(m) {
          OnlyLocal(g, m);
        }
        assert (m in file.messages && g.Appendable(m)) || pull.Pulled(m);
        queue := PullChildren(file, m, queue[1..]);
      }
    }

    /** One round: the candidates among the children of `m` are pulled and queued. */
    method PullChildren(file: File, m: Msg, work: seq<Msg>) returns (queue: seq<Msg>)
      requires Valid() && m in g.children && forall x <- appendPulled :: Pull(g, file).Pulled(x)
      requires (m in file.messages && g.Appendable(m)) || Pull(g, file).Pulled(m)
      requires forall x <- work :: Source(Pull(g, file), appendPulled, x)
      modifies this
      ensures Valid() && appendPulled >= old(appendPulled) && forall x <- appendPulled :: Pull(g, file).Pulled(x)
      ensures appendPulled == old(appendPulled) ==> queue == work
      ensures forall x <- queue :: Source(Pull(g, file), appendPulled, x)
      ensures (forall x <- work :: x in queue) && forall x <- appendPulled - old(appendPulled) :: x in queue
      ensures forall c <- g.children[m] :: Pull(g, file).Candidate(c) ==> c in appendPulled
    {
      ghost var pull := Pull(g, file);
      var children := g.children[m];
      queue := work;
      for i := 0 to |children|
        invariant Valid() && appendPulled >= old(appendPulled) && forall x <- appendPulled :: pull.Pulled(x)
        invariant appendPulled == old(appendPulled) ==> queue == work
        invariant forall x <- queue :: Source(pull, appendPulled, x)
        invariant (forall x <- work :: x in queue) && forall x <- appendPulled - old(appendPulled) :: x in queue
        invariant forall j :: 0 <= j < i && pull.Candidate(children[j]) ==> children[j] in appendPulled
      {
        queue := PullChild(file, m, children[i], queue);
      }
    }

    /** One child: pulled and queued if it is a candidate that is not there yet. */
    method PullChild(file: File, m: Msg, c: Msg, work: seq<Msg>) returns (queue: seq<Msg>)
      requires Valid() && m in g.children && c in g.children[m]
      requires (m in file.messages && g.Appendable(m)) || Pull(g, file).Pulled(m)
      modifies this
      ensures Valid() && (Pull(g, file).Candidate(c) ==> c in appendPulled)
      ensures (appendPulled == old(appendPulled) && queue == work)
           || (c !in old(appendPulled) && appendPulled == old(appendPulled) + {c} && queue == work + [c] && Pull(g, file).Pulled(c))
    {
      queue := work;
      var add := ShouldPull(file, c);
      if add {
        Pull(g, file).ChildIsPulled(m, c);
        appendPulled := appendPulled + {c};
        queue := queue + [c];
      }
    }
  }

  ghost function Elements(nodes: seq<Msg>): set<Msg> {
    set x <- nodes
  }

  /** What the worklist follows: this file's appendable messages, and what is pulled. */
  ghost predicate Source(pull: Pull, pulled: set<Msg>, m: Msg) {
    (m in pull.file.messages && pull.g.Appendable(m)) || m in pulled
  }

  lemma OnlyLocal(g: Graph, m: Msg)
    requires g.Appendable(m)
    ensures g.Local(m) && g.Eligible(m)
  {
    var p :| g.SeedPath(p) && p[0] == m;
  }

  lemma Grown(nodes: seq<Msg>, n: Msg, before: seq<Msg>, r: seq<Msg>)
    requires nodes + [n] <= before <= r
    ensures r[|nodes|..] == before[|nodes|..] + r[|before|..]
    ensures r[|nodes| + 1..] == before[|nodes| + 1..] + r[|before|..]
  {
  }

  /** Among nodes closed under local children, the fixpoint finds every seed path. */
  lemma {:induction false} PathMarked(g: Graph, nodes: seq<Msg>, marked: set<Msg>, p: seq<Msg>)
    requires g.SeedPath(p) && p[0] in nodes
    requires forall x <- nodes :: g.Local(x)
    requires forall x, c :: x in nodes && g.Child(x, c) && g.Local(c) ==> c in nodes
    requires forall n <- nodes :: g.Seed(n) ==> n in marked
    requires forall n <- nodes, c :: g.Eligible(n) && g.Child(n, c) && c in marked ==> n in marked
    ensures p[0] in marked
    decreases |p|
  {
    if |p| > 1 {
      var rest := p[1..];
      assert forall i {:trigger rest[i]} :: 0 <= i < |rest| ==> rest[i] == p[i + 1];
      assert g.SeedPath(rest) && g.Child(p[0], p[1]) && g.Local(p[1]);
      PathMarked(g, nodes, marked, rest);
    } else {
      assert g.Seed(p[0]);
    }
  }
}
