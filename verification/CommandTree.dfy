/** The command tree the MCP server consults: its executable leaves, and the search by path. */
module CommandTree {
  import opened Prelude
  import McpRunner

  /** `Absent` is a nil pointer in a list of children. */
  datatype Command = Absent | Node(name: string, id: nat, children: seq<Command>)

  /** The leaves below a command, depth first. */
  function LeavesOf(c: Command): seq<Command>
    decreases c, 1
  {
    if c.Absent? then []
    else if c.children == [] then [c]
    else LeavesOfAll(c.children)
  }

  function LeavesOfAll(nodes: seq<Command>): seq<Command>
    decreases nodes, 0
  {
    if nodes == [] then [] else LeavesOf(nodes[0]) + LeavesOfAll(nodes[1..])
  }

  /** Depth-first search for a path of names, which backs up when a namesake has no such child. */
  function FindIn(nodes: seq<Command>, segs: seq<string>): Option<Command>
    decreases nodes
  {
    if segs == [] || nodes == [] then None
    else
      var n, rest := nodes[0], FindIn(nodes[1..], segs);
      if n.Absent? || n.name != segs[0] then rest
      else if |segs| == 1 then Some(n)
      else
        var found := FindIn(n.children, segs[1..]);
        if found.Some? then found else rest
  }

  function Find(roots: seq<Command>, path: string): Option<Command> {
    var segs := McpRunner.SplitPath(path);
    if segs == [] then
      if |roots| == 1 && roots[0].Node? then Some(roots[0]) else None
    else if FindIn(roots, segs).Some? then FindIn(roots, segs)
    else FindBelow(roots, segs)
  }

  /** The path taken as relative to one root, the first that has it. */
  function FindBelow(roots: seq<Command>, segs: seq<string>): Option<Command> {
    if roots == [] then None
    else if roots[0].Node? && FindIn(roots[0].children, segs).Some? then FindIn(roots[0].children, segs)
    else FindBelow(roots[1..], segs)
  }

  // ----- The tree seen as positions

  /** `c` sits at the position `at` (a list of child indices) and the names on the way are `segs`. */
  ghost predicate SitsAt(nodes: seq<Command>, at: seq<nat>, segs: seq<string>, c: Command)
    decreases |at|
  {
    && |at| == |segs| && |at| > 0 && at[0] < |nodes|
    && nodes[at[0]].Node? && nodes[at[0]].name == segs[0]
    && if |at| == 1 then c == nodes[at[0]] else SitsAt(nodes[at[0]].children, at[1..], segs[1..], c)
  }

  /** Some command sits at this path of names. */
  ghost predicate Reachable(nodes: seq<Command>, segs: seq<string>) {
    exists at: seq<nat>, c: Command :: SitsAt(nodes, at, segs, c)
  }

  /** The order in which a depth-first walk meets positions of one depth. */
  ghost predicate Before(a: seq<nat>, b: seq<nat>)
    requires |a| == |b|
  {
    |a| > 0 && (a[0] < b[0] || (a[0] == b[0] && Before(a[1..], b[1..])))
  }

  /** `c` sits at `at`, and nothing with that path of names sits before it. */
  ghost predicate FirstAt(nodes: seq<Command>, at: seq<nat>, segs: seq<string>, c: Command) {
    && SitsAt(nodes, at, segs, c)
    && forall at': seq<nat>, c': Command :: SitsAt(nodes, at', segs, c') ==> !Before(at', at)
  }

  /** A position lies in the first child, or in the list after it. */
  lemma PositionInParts(nodes: seq<Command>, at: seq<nat>, segs: seq<string>, c: Command)
    requires SitsAt(nodes, at, segs, c)
    ensures at[0] > 0 ==> SitsAt(nodes[1..], [at[0] - 1] + at[1..], segs, c)
    ensures at[0] == 0 && |at| > 1 ==> SitsAt(nodes[0].children, at[1..], segs[1..], c)
  {
    if at[0] > 0 {
      var shifted := [at[0] - 1] + at[1..];
      assert nodes[1..][at[0] - 1] == nodes[at[0]];
      assert shifted[1..] == at[1..];
    }
  }

  /** The converse: a position of the rest of the list, shifted. */
  lemma PositionFromRest(nodes: seq<Command>, at: seq<nat>, segs: seq<string>, c: Command)
    requires nodes != [] && SitsAt(nodes[1..], at, segs, c)
    ensures SitsAt(nodes, [at[0] + 1] + at[1..], segs, c)
  {
    var shifted := [at[0] + 1] + at[1..];
    assert nodes[shifted[0]] == nodes[1..][at[0]];
    assert shifted[1..] == at[1..];
  }

  lemma {:induction false} NothingMissed(nodes: seq<Command>, segs: seq<string>)
    requires FindIn(nodes, segs).None?
    ensures forall at: seq<nat>, c: Command :: !SitsAt(nodes, at, segs, c)
    decreases nodes
  {
    if segs != [] && nodes != [] {
      var n := nodes[0];
      NothingMissed(nodes[1..], segs);
      if n.Node? && n.name == segs[0] && |segs| > 1 {
        NothingMissed(n.children, segs[1..]);
      }
      forall at: seq<nat>, c: Command ensures !SitsAt(nodes, at, segs, c) {
        if SitsAt(nodes, at, segs, c) {
          PositionInParts(nodes, at, segs, c);
        }
      }
    }
  }

  lemma {:induction false} FirstPosition(nodes: seq<Command>, segs: seq<string>) returns (at: seq<nat>)
    requires FindIn(nodes, segs).Some?
    ensures FirstAt(nodes, at, segs, FindIn(nodes, segs).value)
    decreases nodes
  {
    var n, later := nodes[0], nodes[1..];
    var found := FindIn(nodes, segs).value;
    var here := n.Node? && n.name == segs[0];
    if here && |segs| == 1 {
      at := [0];
    } else if here && FindIn(n.children, segs[1..]).Some? {
      var inner := FirstPosition(n.children, segs[1..]);
      at := [0] + inner;
      assert at[1..] == inner;
      forall at': seq<nat>, c': Command | SitsAt(nodes, at', segs, c') ensures !Before(at', at) {
        PositionInParts(nodes, at', segs, c');
      }
    } else {
      var outer := FirstPosition(later, segs);
      at := [outer[0] + 1] + outer[1..];
      PositionFromRest(nodes, outer, segs, found);
      if here {
        NothingMissed(n.children, segs[1..]);
      }
      forall at': seq<nat>, c': Command | SitsAt(nodes, at', segs, c') ensures !Before(at', at) {
        PositionInParts(nodes, at', segs, c');
        assert at'[0] > 0;
        var shifted := [at'[0] - 1] + at'[1..];
        assert SitsAt(later, shifted, segs, c');
        assert !Before(shifted, outer);
        assert shifted[1..] == at'[1..] && at[1..] == outer[1..];
      }
    }
  }

  /** The search succeeds exactly when some command sits at that path of names, backtracking over
      namesakes included, and then it returns the first one in walking order. */
  lemma FindInExact(nodes: seq<Command>, segs: seq<string>)
    ensures FindIn(nodes, segs).Some? <==> Reachable(nodes, segs)
    ensures FindIn(nodes, segs).Some? ==> exists at: seq<nat> :: FirstAt(nodes, at, segs, FindIn(nodes, segs).value)
  {
    if FindIn(nodes, segs).Some? {
      var at := FirstPosition(nodes, segs);
      var c := FindIn(nodes, segs).value;
      assert SitsAt(nodes, at, segs, c);
      assert Reachable(nodes, segs);
    } else {
      NothingMissed(nodes, segs);
    }
  }

  /** `c` is the first command with this path below the root at position `i`, and no earlier root has one
      below it. */
  ghost predicate FirstBelow(roots: seq<Command>, i: nat, segs: seq<string>, c: Command) {
    && i < |roots| && roots[i].Node?
    && (exists at: seq<nat> :: FirstAt(roots[i].children, at, segs, c))
    && forall j | 0 <= j < i && roots[j].Node? :: !Reachable(roots[j].children, segs)
  }

  /** The fallback succeeds exactly when some root has the path below it, and answers the first command
      with that path below the first such root. */
  lemma {:induction false} FindBelowExact(roots: seq<Command>, segs: seq<string>)
    ensures FindBelow(roots, segs).Some? <==> exists r :: r in roots && r.Node? && Reachable(r.children, segs)
    ensures FindBelow(roots, segs).Some? ==> exists i: nat :: FirstBelow(roots, i, segs, FindBelow(roots, segs).value)
  {
    if roots != [] {
      var rest := roots[1..];
      FindBelowExact(rest, segs);
      assert roots[0] in roots;
      assert forall r | r in roots :: r == roots[0] || r in rest;
      if roots[0].Node? {
        FindInExact(roots[0].children, segs);
      }
      if roots[0].Node? && FindIn(roots[0].children, segs).Some? {
        assert FirstBelow(roots, 0, segs, FindBelow(roots, segs).value);
      } else if FindBelow(rest, segs).Some? {
        var i: nat :| FirstBelow(rest, i, segs, FindBelow(rest, segs).value);
        assert rest[i] == roots[i + 1];
        forall j | 0 <= j < i + 1 && roots[j].Node? ensures !Reachable(roots[j].children, segs) {
          if j > 0 {
            assert rest[j - 1] == roots[j];
          }
        }
        assert FirstBelow(roots, i + 1, segs, FindBelow(roots, segs).value);
      }
    }
  }

  /** A path is resolved from the roots, or failing that below the first root that has it, and never
      otherwise; each time the first command in walking order is the answer. An empty path names the only
      root. */
  lemma {:induction false} FindExact(roots: seq<Command>, path: string)
    ensures
      var segs := McpRunner.SplitPath(path);
      match Find(roots, path)
      case Some(c) =>
        if segs == [] then roots == [c] && c.Node?
        else if Reachable(roots, segs) then exists at: seq<nat> :: FirstAt(roots, at, segs, c)
        else exists i: nat :: FirstBelow(roots, i, segs, c)
      case None =>
        if segs == [] then |roots| != 1 || roots[0].Absent?
        else !Reachable(roots, segs) && forall r | r in roots && r.Node? :: !Reachable(r.children, segs)
  {
    var segs := McpRunner.SplitPath(path);
    FindInExact(roots, segs);
    FindBelowExact(roots, segs);
  }

  // ----- Leaves

  class LeafList {
    var out: seq<Command>

    constructor ()
      ensures out == []
    {
      out := [];
    }

    /** Appends the leaves below `c` to the list. */
    method CollectLeaves(c: Command)
      modifies this
      ensures out == old(out) + LeavesOf(c)
      decreases c
    {
      if c.Absent? {
        return;
      }
      if |c.children| == 0 {
        out := out + [c];
        return;
      }
      for i := 0 to |c.children|
        invariant out == old(out) + LeavesOfAll(c.children[..i])
      {
        assert c.children[..i + 1] == c.children[..i] + [c.children[i]];
        LeavesOfLonger(c.children[..i], c.children[i]);
        CollectLeaves(c.children[i]);
      }
      assert c.children[..|c.children|] == c.children;
    }
  }

  lemma {:induction false} LeavesOfLonger(nodes: seq<Command>, c: Command)
    ensures LeavesOfAll(nodes + [c]) == LeavesOfAll(nodes) + LeavesOf(c)
  {
    if nodes == [] {
      assert nodes + [c] == [c];
      assert LeavesOfAll([c][1..]) == [];
    } else {
      assert (nodes + [c])[1..] == nodes[1..] + [c];
      LeavesOfLonger(nodes[1..], c);
    }
  }

  // The order of the leaves.

  /** `c` is the command at the position `at`. */
  ghost predicate IsAt(nodes: seq<Command>, at: seq<nat>, c: Command)
    decreases |at|
  {
    && |at| > 0 && at[0] < |nodes| && nodes[at[0]].Node?
    && if |at| == 1 then c == nodes[at[0]] else IsAt(nodes[at[0]].children, at[1..], c)
  }

  /** A walk that takes children in order meets `a` before `b`, neither below the other. */
  ghost predicate WalkedBefore(a: seq<nat>, b: seq<nat>)
    decreases |a|
  {
    |a| > 0 && |b| > 0 && (a[0] < b[0] || (a[0] == b[0] && WalkedBefore(a[1..], b[1..])))
  }

  /** The positions of the leaves, child by child. */
  ghost function Positions(nodes: seq<Command>): seq<seq<nat>>
    decreases nodes, 0
  {
    if nodes == [] then [] else FirstPositions(nodes[0]) + Shifted(Positions(nodes[1..]))
  }

  ghost function FirstPositions(n: Command): seq<seq<nat>>
    decreases n, 1
  {
    if n.Absent? then [] else if n.children == [] then [[0]] else Below(Positions(n.children))
  }

  ghost function Below(ats: seq<seq<nat>>): seq<seq<nat>> {
    seq(|ats|, i requires 0 <= i < |ats| => [0] + ats[i])
  }

  ghost function Shifted(ats: seq<seq<nat>>): seq<seq<nat>> {
    seq(|ats|, i requires 0 <= i < |ats| => if ats[i] == [] then [] else [ats[i][0] + 1] + ats[i][1..])
  }

  /** The leaves stand in the order of a depth-first walk, one for each position. */
  ghost predicate InWalkingOrder(nodes: seq<Command>, leaves: seq<Command>, ats: seq<seq<nat>>) {
    && |leaves| == |ats|
    && (forall i | 0 <= i < |ats| :: IsAt(nodes, ats[i], leaves[i]))
    && forall i, j | 0 <= i < j < |ats| :: WalkedBefore(ats[i], ats[j])
  }

  lemma {:induction false} LeavesInOrder(nodes: seq<Command>)
    ensures InWalkingOrder(nodes, LeavesOfAll(nodes), Positions(nodes))
    decreases nodes
  {
    if nodes != [] {
      var n, rest := nodes[0], nodes[1..];
      LeavesInOrder(rest);
      ShiftedInOrder(nodes, LeavesOfAll(rest), Positions(rest));
      if n.Node? && n.children != [] {
        LeavesInOrder(n.children);
        BelowInOrder(nodes, LeavesOf(n), Positions(n.children));
      }
      JoinedInOrder(nodes, LeavesOf(n), FirstPositions(n), LeavesOfAll(rest), Shifted(Positions(rest)));
    }
  }

  lemma {:induction false} ShiftedInOrder(nodes: seq<Command>, leaves: seq<Command>, ats: seq<seq<nat>>)
    requires nodes != [] && InWalkingOrder(nodes[1..], leaves, ats)
    ensures InWalkingOrder(nodes, leaves, Shifted(ats))
    ensures forall i | 0 <= i < |ats| :: |Shifted(ats)[i]| > 0 && Shifted(ats)[i][0] > 0
  {
    var up := Shifted(ats);
    forall i | 0 <= i < |ats| ensures IsAt(nodes, up[i], leaves[i]) && up[i][0] > 0 {
      assert IsAt(nodes[1..], ats[i], leaves[i]);
      assert nodes[1..][ats[i][0]] == nodes[up[i][0]] && up[i][1..] == ats[i][1..];
    }
    forall i, j | 0 <= i < j < |ats| ensures WalkedBefore(up[i], up[j]) {
      assert WalkedBefore(ats[i], ats[j]);
      assert up[i][1..] == ats[i][1..] && up[j][1..] == ats[j][1..];
    }
  }

  lemma {:induction false} BelowInOrder(nodes: seq<Command>, leaves: seq<Command>, ats: seq<seq<nat>>)
    requires nodes != [] && nodes[0].Node? && InWalkingOrder(nodes[0].children, leaves, ats)
    ensures InWalkingOrder(nodes, leaves, Below(ats))
    ensures forall i | 0 <= i < |ats| :: |Below(ats)[i]| > 0 && Below(ats)[i][0] == 0
  {
    var down := Below(ats);
    forall i | 0 <= i < |ats| ensures IsAt(nodes, down[i], leaves[i]) {
      assert IsAt(nodes[0].children, ats[i], leaves[i]);
      assert down[i][1..] == ats[i];
    }
    forall i, j | 0 <= i < j < |ats| ensures WalkedBefore(down[i], down[j]) {
      assert WalkedBefore(ats[i], ats[j]);
      assert down[i][1..] == ats[i] && down[j][1..] == ats[j];
    }
  }

  lemma {:induction false} JoinedInOrder(nodes: seq<Command>, l: seq<Command>, a: seq<seq<nat>>, m: seq<Command>,
                                         b: seq<seq<nat>>)
    requires InWalkingOrder(nodes, l, a) && InWalkingOrder(nodes, m, b)
    requires forall i | 0 <= i < |a| :: |a[i]| > 0 && a[i][0] == 0
    requires forall i | 0 <= i < |b| :: |b[i]| > 0 && b[i][0] > 0
    ensures InWalkingOrder(nodes, l + m, a + b)
  {
    forall i, j | 0 <= i < j < |a + b| ensures WalkedBefore((a + b)[i], (a + b)[j]) {
      if j < |a| {
        assert WalkedBefore(a[i], a[j]);
      } else if i >= |a| {
        assert WalkedBefore(b[i - |a|], b[j - |a|]);
      }
    }
  }

  lemma {:induction false} InEither(a: seq<seq<nat>>, b: seq<seq<nat>>, x: seq<nat>)
    ensures x in a + b <==> x in a || x in b
  {
  }

  lemma {:induction false} InBelow(ats: seq<seq<nat>>, at: seq<nat>)
    requires at in ats
    ensures [0] + at in Below(ats)
  {
    var i :| 0 <= i < |ats| && ats[i] == at;
    assert Below(ats)[i] == [0] + at;
  }

  lemma {:induction false} InShifted(ats: seq<seq<nat>>, at: seq<nat>)
    requires at in ats && at != []
    ensures [at[0] + 1] + at[1..] in Shifted(ats)
  {
    var i :| 0 <= i < |ats| && ats[i] == at;
    assert Shifted(ats)[i] == [at[0] + 1] + at[1..];
  }

  /** And no leaf is left out. */
  lemma {:induction false} EveryLeafHasAPosition(nodes: seq<Command>, at: seq<nat>, c: Command)
    requires IsAt(nodes, at, c) && c.Node? && c.children == []
    ensures at in Positions(nodes)
    decreases nodes
  {
    var n, later := nodes[0], Positions(nodes[1..]);
    InEither(FirstPositions(n), Shifted(later), at);
    if at[0] > 0 {
      var before := [at[0] - 1] + at[1..];
      EarlierPosition(nodes, at, c);
      EveryLeafHasAPosition(nodes[1..], before, c);
      InShifted(later, before);
      assert [before[0] + 1] + before[1..] == at;
    } else if |at| > 1 {
      EveryLeafHasAPosition(n.children, at[1..], c);
      InBelow(Positions(n.children), at[1..]);
      assert [0] + at[1..] == at;
    } else {
      assert at == [0] && at in [[0]];
    }
  }

  lemma {:induction false} EarlierPosition(nodes: seq<Command>, at: seq<nat>, c: Command)
    requires IsAt(nodes, at, c) && at[0] > 0
    ensures IsAt(nodes[1..], [at[0] - 1] + at[1..], c)
  {
    var before := [at[0] - 1] + at[1..];
    assert before[1..] == at[1..] && nodes[1..][at[0] - 1] == nodes[at[0]];
  }

  ghost predicate Sits(nodes: seq<Command>, c: Command) {
    exists at: seq<nat>, segs: seq<string> :: SitsAt(nodes, at, segs, c)
  }

  /** The leaves are exactly the commands without children, wherever they sit. */
  lemma {:induction false} LeavesExact(nodes: seq<Command>, c: Command)
    ensures c in LeavesOfAll(nodes) <==> c.Node? && c.children == [] && Sits(nodes, c)
    decreases nodes
  {
    if nodes != [] {
      var n := nodes[0];
      LeavesExact(nodes[1..], c);
      if n.Node? && n.children != [] {
        LeavesExact(n.children, c);
      }
      if c in LeavesOfAll(nodes) {
        assert c in LeavesOf(n) || c in LeavesOfAll(nodes[1..]);
        SomewhereIn(nodes, c);
      }
      if c.Node? && c.children == [] && Sits(nodes, c) {
        var at: seq<nat>, segs :| SitsAt(nodes, at, segs, c);
        PositionInParts(nodes, at, segs, c);
        if at[0] > 0 {
          assert Sits(nodes[1..], c);
        } else if |at| > 1 {
          assert Sits(n.children, c);
        }
      }
    }
  }

  lemma SomewhereIn(nodes: seq<Command>, c: Command)
    requires nodes != []
    requires (c == nodes[0] && c.Node?) || Sits(nodes[1..], c) || (nodes[0].Node? && Sits(nodes[0].children, c))
    ensures Sits(nodes, c)
  {
    if c == nodes[0] && c.Node? {
      assert SitsAt(nodes, [0], [c.name], c);
    } else if Sits(nodes[1..], c) {
      var at: seq<nat>, segs :| SitsAt(nodes[1..], at, segs, c);
      PositionFromRest(nodes, at, segs, c);
    } else {
      var at: seq<nat>, segs :| SitsAt(nodes[0].children, at, segs, c);
      assert ([0] + at)[1..] == at && ([nodes[0].name] + segs)[1..] == segs;
      assert SitsAt(nodes, [0] + at, [nodes[0].name] + segs, c);
    }
  }

  /** No two siblings share a name, anywhere in the tree. */
  ghost predicate UniqueNames(nodes: seq<Command>) {
    && (forall i, j | 0 <= i < j < |nodes| :: nodes[i].Node? && nodes[j].Node? ==> nodes[i].name != nodes[j].name)
    && forall i | 0 <= i < |nodes| :: nodes[i].Node? ==> UniqueNames(nodes[i].children)
  }

  lemma {:induction false} PositionsAreUnique(nodes: seq<Command>, a: seq<nat>, b: seq<nat>, segs: seq<string>,
                                              c: Command, d: Command)
    requires UniqueNames(nodes) && SitsAt(nodes, a, segs, c) && SitsAt(nodes, b, segs, d)
    ensures c == d
    decreases |a|
  {
    assert a[0] == b[0];
    if |a| > 1 {
      PositionsAreUnique(nodes[a[0]].children, a[1..], b[1..], segs[1..], c, d);
    }
  }

  /** Every command, anywhere in the tree, has a name that a path can carry. */
  ghost predicate NamedCleanly(nodes: seq<Command>) {
    forall i | 0 <= i < |nodes| ::
      nodes[i].Node? ==> McpRunner.CleanName(nodes[i].name) && NamedCleanly(nodes[i].children)
  }

  lemma {:induction false} PathIsClean(nodes: seq<Command>, at: seq<nat>, segs: seq<string>, c: Command)
    requires NamedCleanly(nodes) && SitsAt(nodes, at, segs, c)
    ensures McpRunner.CleanNames(segs)
    decreases |at|
  {
    if |at| > 1 {
      PathIsClean(nodes[at[0]].children, at[1..], segs[1..], c);
      assert segs == [segs[0]] + segs[1..];
    }
  }

  /** Leaves and search fit together: in a tree without namesake siblings and with clean names, every
      leaf sits at some path of names, and resolving that path as text returns that very leaf. */
  lemma LeavesAreFound(roots: seq<Command>, c: Command) returns (at: seq<nat>, segs: seq<string>)
    requires UniqueNames(roots) && NamedCleanly(roots) && c in LeavesOfAll(roots)
    ensures SitsAt(roots, at, segs, c)
    ensures Find(roots, Join(segs, '/')) == Some(c)
  {
    LeavesExact(roots, c);
    at, segs :| SitsAt(roots, at, segs, c);
    assert Reachable(roots, segs);
    FindInExact(roots, segs);
    var found := FindIn(roots, segs).value;
    var at': seq<nat> :| FirstAt(roots, at', segs, found);
    PositionsAreUnique(roots, at, at', segs, c, found);
    PathIsClean(roots, at, segs, c);
    McpRunner.PathRoundTrip(segs);
  }

  /** The relative form of a path: a leaf below one root is found by its path without that root, unless the
      path means something from the roots already, or below an earlier root. */
  lemma {:induction false} RelativeLeavesAreFound(roots: seq<Command>, i: nat, c: Command)
    returns (at: seq<nat>, segs: seq<string>)
    requires UniqueNames(roots) && NamedCleanly(roots) && i < |roots| && roots[i].Node?
    requires c in LeavesOfAll(roots[i].children)
    ensures SitsAt(roots[i].children, at, segs, c)
    ensures !Reachable(roots, segs) && (forall j | 0 <= j < i && roots[j].Node? :: !Reachable(roots[j].children, segs))
      ==> Find(roots, Join(segs, '/')) == Some(c)
  {
    var inner := roots[i].children;
    LeavesExact(inner, c);
    at, segs :| SitsAt(inner, at, segs, c);
    PathIsClean(inner, at, segs, c);
    McpRunner.PathRoundTrip(segs);
    assert Reachable(inner, segs);
    if !Reachable(roots, segs) && (forall j | 0 <= j < i && roots[j].Node? :: !Reachable(roots[j].children, segs)) {
      FindInExact(roots, segs);
      FindBelowExact(roots, segs);
      assert roots[i] in roots;
      var found := FindBelow(roots, segs).value;
      var k: nat :| FirstBelow(roots, k, segs, found);
      SameRoot(roots, i, k, segs, found);
      var at': seq<nat> :| FirstAt(inner, at', segs, found);
      PositionsAreUnique(inner, at, at', segs, c, found);
    }
  }

  lemma {:induction false} SameRoot(roots: seq<Command>, i: nat, k: nat, segs: seq<string>, c: Command)
    requires i < |roots| && roots[i].Node? && Reachable(roots[i].children, segs) && FirstBelow(roots, k, segs, c)
    requires forall j | 0 <= j < i && roots[j].Node? :: !Reachable(roots[j].children, segs)
    ensures k == i
  {
    var at: seq<nat> :| FirstAt(roots[k].children, at, segs, c);
    assert Reachable(roots[k].children, segs);
  }
}
