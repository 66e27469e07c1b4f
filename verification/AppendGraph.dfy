/**
 Which messages get AppendJSON: what the two searches of the generator are to
 compute, stated by paths through the message graph, and what follows from it.
 */
module AppendGraph {

  type Msg = string

  /** The messages a generation run sees. `children` follows message-typed fields,
      map values and oneof variants. */
  datatype Graph = Graph(
    children: map<Msg, seq<Msg>>,
    external: set<Msg>,      // resolved to another package
    supported: set<Msg>,     // every field has a kind AppendJSON writes
    unwrapped: set<Msg>,     // one field, marked unwrap: written as that field
    customField: set<Msg>)   // some field needs custom JSON
  {
    predicate WellFormed() {
      forall m <- children, c <- children[m] :: c in children
    }

    predicate Local(m: Msg) {
      m in children && m !in external
    }

    predicate Child(m: Msg, c: Msg) {
      m in children && c in children[m]
    }

    predicate Eligible(m: Msg) {
      m in supported && m !in unwrapped
    }

    predicate NeedsCustom(m: Msg) {
      m in customField && m !in unwrapped
    }

    predicate Seed(m: Msg) {
      Local(m) && Eligible(m) && NeedsCustom(m)
    }

    /** Eligible local messages, each containing the next, down to a custom one. */
    predicate SeedPath(p: seq<Msg>) {
      && p != []
      && (forall i :: 0 <= i < |p| ==> Local(p[i]) && Eligible(p[i]))
      && (forall i {:trigger p[i]} :: 0 <= i < |p| - 1 ==> Child(p[i], p[i + 1]))
      && NeedsCustom(p[|p| - 1])
    }

    /** Messages that get AppendJSON because of their own JSON or a member's. */
    ghost predicate Appendable(m: Msg) {
      exists p :: SeedPath(p) && p[0] == m
    }

    lemma SeedIsAppendable(m: Msg)
      requires Seed(m)
      ensures Appendable(m)
    {
      assert SeedPath([m]);
    }

    lemma ParentIsAppendable(m: Msg, c: Msg)
      requires Local(m) && Eligible(m) && Child(m, c) && Appendable(c)
      ensures Appendable(m)
    {
      var p :| SeedPath(p) && p[0] == c;
      var q := [m] + p;
      assert forall i {:trigger q[i]} :: 0 < i < |q| ==> q[i] == p[i - 1];
      assert SeedPath(q);
    }

    /** Nothing smaller is closed: a set holding the custom messages and every
        eligible parent of a member holds every appendable message. */
    lemma {:induction false} AppendableIsLeast(s: iset<Msg>, p: seq<Msg>)
      requires forall m | Seed(m) :: m in s
      requires forall m, c | Local(m) && Eligible(m) && Child(m, c) && c in s :: m in s
      requires SeedPath(p)
      ensures p[0] in s
      decreases |p|
    {
      if |p| == 1 {
        assert Seed(p[0]);
      } else {
        var rest := p[1..];
        assert forall i {:trigger rest[i]} :: 0 <= i < |rest| ==> rest[i] == p[i + 1];
        assert SeedPath(rest);
        AppendableIsLeast(s, rest);
        assert Child(p[0], p[1]);
      }
    }
  }

  // ---- one file -----------------------------------------------------------

  /** A file: its messages, and the messages its plain HTTP methods put on the wire. */
  datatype File = File(messages: set<Msg>, wire: set<Msg>)

  datatype Pull = Pull(g: Graph, file: File) {
    /** What may be pulled at all. */
    ghost predicate Candidate(m: Msg) {
      m in file.messages && g.Local(m) && g.Eligible(m) && !g.Appendable(m)
    }

    ghost predicate Start(m: Msg) {
      (m in file.messages && g.Appendable(m)) || (m in file.wire && Candidate(m))
    }

    /** Candidates below one another, from a message that is written anyway. */
    ghost predicate PullPath(p: seq<Msg>) {
      && p != [] && Start(p[0])
      && (forall i {:trigger p[i]} :: 1 <= i < |p| ==> Candidate(p[i]))
      && (forall i {:trigger p[i]} :: 0 <= i < |p| - 1 ==> g.Child(p[i], p[i + 1]))
    }

    ghost predicate Pulled(m: Msg) {
      Candidate(m) && exists p :: PullPath(p) && p[|p| - 1] == m
    }

    /** `hasAppend`: generated code calls the message's AppendJSON and onkDecode. */
    ghost predicate HasAppend(m: Msg) {
      g.Local(m) && (g.Appendable(m) || Pulled(m))
    }

    lemma WireIsPulled(m: Msg)
      requires m in file.wire && Candidate(m)
      ensures Pulled(m)
    {
      assert PullPath([m]);
    }

    lemma ChildIsPulled(m: Msg, c: Msg)
      requires (m in file.messages && g.Appendable(m)) || Pulled(m)
      requires g.Child(m, c) && Candidate(c)
      ensures Pulled(c)
    {
      if !Pulled(m) {
        assert PullPath([m]) && [m][|[m]| - 1] == m;
      }
      var p :| PullPath(p) && p[|p| - 1] == m;
      assert PullPath(p) && p != [];
      var q := p + [c];
      assert forall i {:trigger q[i]} :: 0 <= i < |p| ==> q[i] == p[i];
      assert q[0] == p[0] && q[|q| - 1] == c;
      assert PullPath(q);
    }

    /** Every set closed the way the worklist closes it holds what is pulled. */
    lemma {:induction false} PulledIsLeast(s: set<Msg>, p: seq<Msg>)
      requires forall m | m in file.wire && Candidate(m) :: m in s
      requires forall m, c | ((m in file.messages && g.Appendable(m)) || m in s) && g.Child(m, c) && Candidate(c) :: c in s
      requires PullPath(p) && Candidate(p[|p| - 1])
      ensures p[|p| - 1] in s
      decreases |p|
    {
      if |p| > 1 {
        var front := p[..|p| - 1];
        assert forall i {:trigger front[i]} :: 0 <= i < |front| ==> front[i] == p[i];
        assert PullPath(front);
        if Candidate(front[|front| - 1]) {
          PulledIsLeast(s, front);
        }
        assert g.Child(p[|p| - 2], p[|p| - 1]);
      }
    }

    /** Nothing ineligible, foreign or from another file is pulled; and below a
        message of this file that has AppendJSON, every eligible local message of
        this file has it too. */
    lemma AppendJSONIsClosed(m: Msg, c: Msg)
      ensures Pulled(m) ==> m in file.messages
      ensures HasAppend(m) ==> m in g.children && m !in g.external && m in g.supported && m !in g.unwrapped
      ensures HasAppend(m) && m in file.messages && c in g.children[m]
              && c in file.messages && c in g.children && c !in g.external && c in g.supported && c !in g.unwrapped
              ==> HasAppend(c)
      ensures m in g.children && m !in g.external && m in g.supported && m !in g.unwrapped && m in g.customField ==> HasAppend(m)
    {
      if g.Appendable(m) {
        var p :| g.SeedPath(p) && p[0] == m;
        assert g.Local(p[0]) && g.Eligible(p[0]);
      }
      if g.Seed(m) {
        g.SeedIsAppendable(m);
      }
      if HasAppend(m) && m in file.messages && g.Child(m, c) && Candidate(c) {
        ChildIsPulled(m, c);
      }
    }

    // ---- what is emitted --------------------------------------------------

    /** The dispatch over a message's JSON methods. */
    ghost function WriteMessage(m: Msg): Methods {
      if m in g.unwrapped then RootUnwrap
      else if g.NeedsCustom(m) || g.Appendable(m) then
        if g.Appendable(m) then AppendAndMarshal else MarshalOnly
      else if HasAppend(m) then AppendOnly
      else Plain
    }

    /** AppendJSON and onkDecode are emitted for exactly the messages of the file
        that generated code calls them on. */
    lemma CalledIffEmitted(m: Msg)
      requires m in file.messages
      ensures HasAppend(m) <==> WriteMessage(m).AppendAndMarshal? || WriteMessage(m).AppendOnly?
    {
      if g.Appendable(m) {
        var p :| g.SeedPath(p) && p[0] == m;
        assert g.Local(p[0]) && g.Eligible(p[0]);
      } else if Pulled(m) && g.NeedsCustom(m) {
        g.SeedIsAppendable(m);
      }
    }

    /** MarshalJSON of its own, for exactly the messages whose JSON the standard library
        would get wrong or the generator writes itself. */
    lemma MarshalsItself(m: Msg)
      ensures WriteMessage(m).RootUnwrap? || WriteMessage(m).AppendAndMarshal? || WriteMessage(m).MarshalOnly?
         <==> m in g.unwrapped || g.NeedsCustom(m) || g.Appendable(m)
      ensures WriteMessage(m).RootUnwrap? <==> m in g.unwrapped
      ensures WriteMessage(m).MarshalOnly? ==> g.NeedsCustom(m) && !g.Appendable(m)
    {
    }
  }

  datatype Methods = RootUnwrap | AppendAndMarshal | MarshalOnly | AppendOnly | Plain
}
