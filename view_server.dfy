/**
 * The client side of Android's ViewServer: cleaning up the raw reply of a
 * `DUMP` command, rebuilding the view tree from the indentation of its
 * lines, and scanning the lines for the first view a selector accepts.
 *
 * `RunLines` states, on plain values, what the tree builder does with each
 * line; `ParseDump` builds the tree of `ViewNode` objects step by step, as
 * the JavaScript does, and is proved to build exactly that tree.
 */
module ViewServer {
  import opened Js
  import opened ViewNodes
  import opened Comparator

  // ------------------------------------------------------------ the reply

  /** The ViewServer's end-of-reply marker. */
  const Terminator: string := "DONE.\nDONE\n"

  /** The regular expression /DONE.\nDONE\n/ matches at `i`; its `.` is any character but a line terminator. */
  predicate MatchesAt(s: string, i: nat) {
    i + 11 <= |s|
    && s[i] == 'D' && s[i + 1] == 'O' && s[i + 2] == 'N' && s[i + 3] == 'E' && !IsLineTerminator(s[i + 4])
    && s[i + 5] == '\n'
    && s[i + 6] == 'D' && s[i + 7] == 'O' && s[i + 8] == 'N' && s[i + 9] == 'E' && s[i + 10] == '\n'
  }

  /** The marker itself is matched, and any match is "DONE", one character, then "\nDONE\n". */
  lemma MatchesAtShape(s: string, i: nat)
    ensures i + 11 <= |s| && s[i..i + 11] == Terminator ==> MatchesAt(s, i)
    ensures MatchesAt(s, i) ==> i + 11 <= |s| && s[i..i + 4] == "DONE" && s[i + 5..i + 11] == "\nDONE\n"
  {
    if i + 11 <= |s| {
      var m := s[i..i + 11];
      assert forall k :: 0 <= k < 11 ==> m[k] == s[i + k];
      assert s[i..i + 4] == m[..4] && s[i + 5..i + 11] == m[5..];
      if MatchesAt(s, i) {
        assert m[..4] == "DONE" && m[5..] == "\nDONE\n";
      }
    }
  }

  /** `s.replace(/DONE.\nDONE\n/g, '')`: every match, leftmost first and not overlapping, removed. */
  function RemoveTerminators(s: string): (r: string)
    ensures |r| <= |s|
    decreases |s|
  {
    if s == [] then []
    else if MatchesAt(s, 0) then RemoveTerminators(s[11..])
    else [s[0]] + RemoveTerminators(s[1..])
  }

  /** The reply is left alone exactly when the marker occurs nowhere in it. */
  lemma {:induction false} RemoveTerminatorsIdentity(s: string)
    ensures RemoveTerminators(s) == s <==> forall i :: 0 <= i < |s| ==> !MatchesAt(s, i)
    decreases |s|
  {
    if s != [] {
      if MatchesAt(s, 0) {
        assert |RemoveTerminators(s)| < |s|;
      } else {
        RemoveTerminatorsIdentity(s[1..]);
        ShiftMatches(s);
        assert [s[0]] + s[1..] == s;
        assert ([s[0]] + RemoveTerminators(s[1..]))[1..] == RemoveTerminators(s[1..]);
        if forall i :: 0 <= i < |s| - 1 ==> !MatchesAt(s[1..], i) {
          forall i | 0 <= i < |s|
            ensures !MatchesAt(s, i)
          {
            if i > 0 {
              assert !MatchesAt(s[1..], i - 1);
            }
          }
        }
        if forall i :: 0 <= i < |s| ==> !MatchesAt(s, i) {
          forall i | 0 <= i < |s| - 1
            ensures !MatchesAt(s[1..], i)
          {
            assert !MatchesAt(s, i + 1);
          }
        }
      }
    }
  }

  /** A match in `s[1..]` is a match in `s` one position later. */
  lemma ShiftMatches(s: string)
    requires s != []
    ensures forall i :: 0 <= i < |s| - 1 ==> (MatchesAt(s[1..], i) <==> MatchesAt(s, i + 1))
  {
    forall i | 0 <= i < |s| - 1
      ensures MatchesAt(s[1..], i) <==> MatchesAt(s, i + 1)
    {
      if i + 12 <= |s| {
        assert forall k :: i <= k < i + 11 ==> s[1..][k] == s[k + 1];
      }
    }
  }

  /** The marker cannot start within the last ten characters before a trailing marker. */
  lemma NoMatchAcrossMarker(body: string, i: nat)
    requires i < |body|
    requires i + 11 > |body|
    ensures !MatchesAt(body + Terminator, i)
  {
    var s := body + Terminator;
    var d := |body| - i;
    if d == 5 {
      assert s[i + 6] == Terminator[1] == 'O';
    } else {
      assert s[i + 10] == Terminator[10 - d];
      assert Terminator[10 - d] != '\n';
    }
  }

  /** Removing the markers from a body without any, followed by the marker, gives the body. */
  lemma {:induction false} StripTrailingMarker(body: string)
    requires forall i :: 0 <= i < |body| ==> !MatchesAt(body, i)
    ensures RemoveTerminators(body + Terminator) == body
    decreases |body|
  {
    var s := body + Terminator;
    if body == [] {
      assert s == Terminator;
      assert MatchesAt(s, 0);
      assert s[11..] == [];
    } else {
      assert !MatchesAt(s, 0) by {
        if |body| >= 11 {
          assert forall k :: 0 <= k < 11 ==> s[k] == body[k];
          assert !MatchesAt(body, 0);
        } else {
          NoMatchAcrossMarker(body, 0);
        }
      }
      var tail := body[1..];
      assert s[1..] == tail + Terminator;
      ShiftMatches(body);
      forall i | 0 <= i < |tail|
        ensures !MatchesAt(tail, i)
      {
        assert !MatchesAt(body, i + 1);
      }
      StripTrailingMarker(tail);
      assert s[0] == body[0];
      assert RemoveTerminators(s) == [body[0]] + tail;
      assert [body[0]] + tail == body;
    }
  }

  /**
   * What the socket's close handler passes on: the markers are removed when
   * the reply ends with one, then one trailing newline is dropped; an empty
   * result is reported as a failed connection (None) and goes nowhere.
   */
  function CloseReply(result: string): (r: Option<string>)
    ensures r.Some? ==> r.value != [] && |r.value| <= |result|
    ensures !EndsWith(result, Terminator) && r.Some? ==>
              result == r.value || result == r.value + "\n"
  {
    var unmarked := if EndsWith(result, Terminator) then RemoveTerminators(result) else result;
    var trimmed := if EndsWith(unmarked, "\n") then unmarked[..|unmarked| - 1] else unmarked;
    assert !EndsWith(unmarked, "\n") ==> trimmed == unmarked;
    assert EndsWith(unmarked, "\n") ==> unmarked == trimmed + "\n";
    if trimmed == "" then None else Some(trimmed)
  }

  /**
   * A reply made of a body and the marker yields the body less one trailing
   * newline, as long as the body holds no marker of its own.
   */
  lemma TerminatedReply(body: string)
    requires forall i :: 0 <= i < |body| ==> !MatchesAt(body, i)
    ensures var text := if EndsWith(body, "\n") then body[..|body| - 1] else body;
            CloseReply(body + Terminator) == if text == "" then None else Some(text)
  {
    StripTrailingMarker(body);
    assert EndsWith(body + Terminator, Terminator) by {
      assert (body + Terminator)[|body|..] == Terminator;
    }
  }

  // ---------------------------------------------------------------- lines

  /** `s.split('\n')` */
  function Split(s: string): (r: seq<string>)
    ensures |r| >= 1
    ensures forall k :: 0 <= k < |r| ==> '\n' !in r[k]
    decreases |s|
  {
    match IndexOf(s, '\n')
    case None => [s]
    case Some(i) => [s[..i]] + Split(s[i + 1..])
  }

  function Join(parts: seq<string>): string {
    if parts == [] then ""
    else if |parts| == 1 then parts[0]
    else parts[0] + "\n" + Join(parts[1..])
  }

  /** Splitting at newlines loses nothing: joining the lines back gives the text. */
  lemma {:induction false} JoinSplit(s: string)
    ensures Join(Split(s)) == s
    decreases |s|
  {
    match IndexOf(s, '\n') {
      case None =>
      case Some(i) =>
        JoinSplit(s[i + 1..]);
        var parts := Split(s);
        var rest := Split(s[i + 1..]);
        assert parts == [s[..i]] + rest && |parts| >= 2;
        assert parts[1..] == rest;
        assert Join(parts) == s[..i] + "\n" + Join(rest);
        assert s == s[..i] + "\n" + s[i + 1..];
    }
  }

  /**
   * `getIndentation(line)`: the number of leading spaces, or undefined
   * (None) when the line has nothing but spaces.
   */
  function Indentation(line: string): (r: Option<nat>)
    ensures r.Some? ==> r.value < |line| && line[r.value] != ' '
    ensures r.None? ==> forall i :: 0 <= i < |line| ==> line[i] == ' '
  {
    if line == [] then None
    else if line[0] != ' ' then Some(0)
    else match Indentation(line[1..])
      case None => None
      case Some(k) => Some(k + 1)
  }

  /** The indentation is the run of spaces before the first other character; None means all spaces. */
  lemma {:induction false} IndentationCounts(line: string)
    ensures Indentation(line).Some? ==>
              var k := Indentation(line).value;
              k < |line| && line[k] != ' ' && forall i :: 0 <= i < k ==> line[i] == ' '
    ensures Indentation(line).None? <==> forall i :: 0 <= i < |line| ==> line[i] == ' '
  {
    if line != [] && line[0] == ' ' {
      IndentationCounts(line[1..]);
      assert forall i :: 1 <= i < |line| ==> line[i] == line[1..][i - 1];
    }
  }

  method GetIndentation(line: string) returns (r: Option<nat>)
    ensures r == Indentation(line)
  {
    var indentCount := 0;
    while indentCount < |line|
      invariant 0 <= indentCount <= |line|
      invariant forall i :: 0 <= i < indentCount ==> line[i] == ' '
    {
      if line[indentCount] != ' ' {
        IndentationIs(line, indentCount);
        return Some(indentCount);
      }
      indentCount := indentCount + 1;
    }
    IndentationCounts(line);
    return None;
  }

  lemma {:induction false} IndentationIs(line: string, k: nat)
    requires k < |line| && line[k] != ' '
    requires forall i :: 0 <= i < k ==> line[i] == ' '
    ensures Indentation(line) == Some(k)
  {
    if k > 0 {
      var tail := line[1..];
      assert tail[k - 1] == line[k];
      assert forall i :: 0 <= i < k - 1 ==> tail[i] == line[i + 1];
      IndentationIs(tail, k - 1);
      assert line[0] == ' ';
    }
  }

  // ------------------------------------------------------- building the tree

  /**
   * The state of `parse` between two lines, on plain values: line `j`
   * becomes node `j`, and -1 stands for the synthetic Root.  `stack` holds
   * the nodes of `nodeStack`, `parents[j]` is the node line `j` was
   * attached to, and `levels[j]` the level `addChild` gave it.
   */
  datatype Builder = Builder(stack: seq<int>, lastIndent: int, parents: seq<int>, levels: seq<nat>)

  const Start: Builder := Builder([-1], 0, [], [])

  function LevelOf(levels: seq<nat>, e: int): nat
    requires -1 <= e < |levels|
  {
    if e < 0 then 0 else levels[e]
  }

  /**
   * What `parse` keeps true: the stack has `lastIndent + 1` entries and the
   * entry at depth k is a node of level k; every node hangs below an earlier
   * node (or Root), one level deeper.
   */
  ghost predicate Good(b: Builder) {
    && b.lastIndent >= 0
    && |b.stack| == b.lastIndent + 1
    && |b.levels| == |b.parents|
    && (forall k :: 0 <= k < |b.stack| ==> -1 <= b.stack[k] < |b.parents| && LevelOf(b.levels, b.stack[k]) == k)
    && (forall j :: 0 <= j < |b.parents| ==>
          -1 <= b.parents[j] < j && b.levels[j] == LevelOf(b.levels, b.parents[j]) + 1)
  }

  /**
   * `nodeStack[m - 1].addChild(node)` once the stack is cut to `m` entries,
   * then `nodeStack.push(node)`.  `addChild` sets the level one above its
   * parent's, and the entry at depth m - 1 has level m - 1, so the node's
   * level is m (`PushGood` keeps both facts).
   */
  function Push(b: Builder, m: nat): Builder
    requires Good(b) && 1 <= m <= |b.stack|
  {
    Builder(b.stack[..m] + [|b.parents|], m, b.parents + [b.stack[m - 1]], b.levels + [m])
  }

  lemma PushGood(b: Builder, m: nat)
    requires Good(b) && 1 <= m <= |b.stack|
    ensures Good(Push(b, m))
  {
    assert LevelOf(b.levels, b.stack[m - 1]) == m - 1;
    LevelsExtend(b.levels, b.stack[m - 1]);
    var r := Push(b, m);
    assert forall k :: 0 <= k < m ==> r.stack[k] == b.stack[k];
  }

  /** The top of the stack's `addChild(node)`, without a push: the node's level is the stack's depth. */
  function AttachToTop(b: Builder): Builder
    requires Good(b)
  {
    var top := b.stack[|b.stack| - 1];
    Builder(b.stack, b.lastIndent, b.parents + [top], b.levels + [|b.stack|])
  }

  lemma AttachToTopGood(b: Builder)
    requires Good(b)
    ensures Good(AttachToTop(b))
  {
    assert LevelOf(b.levels, b.stack[|b.stack| - 1]) == |b.stack| - 1;
    LevelsExtend(b.levels, b.stack[|b.stack| - 1]);
  }

  /**
   * One line of `parse` with the indentation `indent`; None is the
   * TypeError of calling `addChild` on the top of an empty stack.
   */
  function Step(b: Builder, indent: Option<nat>): (r: Option<Builder>)
    requires Good(b)
    ensures r.None? <==> (indent == Some(0) && b.lastIndent > 0) || (indent.None? && b.lastIndent == 0)
    ensures r.Some? ==> |r.value.parents| == |b.parents| + 1 && r.value.parents[..|b.parents|] == b.parents
                        && r.value.parents[|b.parents|] in b.stack
  {
    if indent.Some? && indent.value > b.lastIndent then
      // deeper: a child of the top, pushed, one level down however deep the line is
      Some(Push(b, |b.stack|))
    else if indent.Some? && indent.value < b.lastIndent then
      // shallower: pop until `indent` entries remain; none remain for indent 0
      if indent.value == 0 then None else Some(Push(b, indent.value))
    else if indent != Some(0) then
      // as deep, or no indentation at all: the node replaces the top
      if b.lastIndent == 0 then None else Some(Push(b, b.lastIndent))
    else
      // indent 0 at depth 0: a child of Root, never pushed
      Some(AttachToTop(b))
  }

  /** A step keeps the builder's invariant and adds one line, leaving the earlier ones as they were. */
  lemma StepGood(b: Builder, indent: Option<nat>)
    requires Good(b)
    ensures Step(b, indent).Some? ==>
              var r := Step(b, indent).value;
              Good(r) && |r.parents| == |b.parents| + 1
              && r.parents[..|b.parents|] == b.parents && r.levels[..|b.levels|] == b.levels
  {
    if indent.Some? && indent.value > b.lastIndent {
      PushGood(b, |b.stack|);
    } else if indent.Some? && indent.value < b.lastIndent {
      if indent.value != 0 {
        PushGood(b, indent.value);
      }
    } else if indent != Some(0) {
      if b.lastIndent != 0 {
        PushGood(b, b.lastIndent);
      }
    } else {
      AttachToTopGood(b);
    }
  }

  lemma LevelsExtend(levels: seq<nat>, top: int)
    requires -1 <= top < |levels|
    ensures forall e :: -1 <= e < |levels| ==> LevelOf(levels + [LevelOf(levels, top) + 1], e) == LevelOf(levels, e)
    ensures LevelOf(levels + [LevelOf(levels, top) + 1], |levels|) == LevelOf(levels, top) + 1
  {
  }

  function Max(a: int, b: int): int { if a < b then b else a }
  function Min(a: int, b: int): int { if a < b then a else b }

  /**
   * The level a line gets: its indentation, capped at one below the current
   * depth and at least 1; a line back at indentation 0 below depth 0 crashes,
   * and so does a line of spaces at depth 0.
   */
  lemma NewNodeLevel(b: Builder, indent: Option<nat>)
    requires Good(b)
    ensures indent.Some? ==> (Step(b, indent).None? <==> indent.value == 0 && b.lastIndent > 0)
    ensures indent.None? ==> (Step(b, indent).None? <==> b.lastIndent == 0)
    ensures Step(b, indent).Some? ==>
              Step(b, indent).value.levels[|b.parents|]
              == if indent.Some? then Max(1, Min(indent.value, b.lastIndent + 1)) else b.lastIndent
  {
    var n := |b.parents|;
    var r := Step(b, indent);
    if r.Some? {
      assert r.value.levels[n] == LevelOf(r.value.levels, r.value.parents[n]) + 1;
      assert LevelOf(r.value.levels, r.value.parents[n]) == LevelOf(b.levels, r.value.parents[n]);
    }
  }

  /** The lines' builder state after `parse` handled them all, or the failure that stopped it. */
  function RunLines(lines: seq<string>): (r: Result<Builder>)
    ensures r.Ok? ==> Good(r.value) && |r.value.parents| == |lines|
  {
    RunFrom(lines, 0, Start)
  }

  /**
   * `parse` from line `i` on, with the builder in state `b`: a line that
   * `fromDump` never returns normally from stops it with Diverges, a line whose node
   * goes on an emptied stack with TypeError.
   */
  function RunFrom(lines: seq<string>, i: nat, b: Builder): (r: Result<Builder>)
    requires i <= |lines| && Good(b)
    ensures r.Ok? ==> Good(r.value) && |r.value.parents| == |b.parents| + |lines| - i
    decreases |lines| - i
  {
    if i == |lines| then Ok(b)
    else if Records(lines)[i].None? then Err(Diverges)
    else
      StepGood(b, Indents(lines)[i]);
      match Step(b, Indents(lines)[i])
      case None => Err(TypeError)
      case Some(b') => RunFrom(lines, i + 1, b')
  }

  /** `fromDump` of line `i`, with what it makes stated through `Records`. */
  method ReadNode(lines: seq<string>, i: nat) returns (r: Option<ViewNode>)
    requires i < |lines|
    ensures r.None? <==> Records(lines)[i].None?
    ensures r.Some? ==> fresh(r.value) && r.value.Holds(Records(lines)[i].value)
                        && r.value.children == [] && r.value.level == 0 && r.value.parent == null
  {
    r := ViewNode.FromDump(lines[i]);
    RecordsAt(lines, i);
  }

  /** `f` applied to each line, in order. */
  function MapLines<T>(f: string -> T, lines: seq<string>): (r: seq<T>)
    ensures |r| == |lines|
  {
    if lines == [] then [] else MapLines(f, lines[..|lines| - 1]) + [f(lines[|lines| - 1])]
  }

  lemma {:induction false} MapLinesAt<T>(f: string -> T, lines: seq<string>, j: nat)
    requires j < |lines|
    ensures MapLines(f, lines)[j] == f(lines[j])
    decreases |lines|
  {
    var n := |lines| - 1;
    if j < n {
      MapLinesAt(f, lines[..n], j);
      assert lines[..n][j] == lines[j];
    }
  }

  /** The indentation of each line. */
  function Indents(lines: seq<string>): (r: seq<Option<nat>>)
    ensures |r| == |lines|
  {
    MapLines(Indentation, lines)
  }

  lemma IndentsAt(lines: seq<string>, j: nat)
    requires j < |lines|
    ensures Indents(lines)[j] == Indentation(lines[j])
  {
    MapLinesAt(Indentation, lines, j);
  }

  /** What `fromDump` makes of each line. */
  function Records(lines: seq<string>): (r: seq<Option<NodeRecord>>)
    ensures |r| == |lines|
  {
    MapLines(ParseLine, lines)
  }

  lemma RecordsAt(lines: seq<string>, j: nat)
    requires j < |lines|
    ensures Records(lines)[j] == ParseLine(lines[j])
  {
    MapLinesAt(ParseLine, lines, j);
  }

  /** A line that parses and steps hands the rest of the dump the new builder. */
  lemma RunOn(lines: seq<string>, i: nat, b: Builder, b': Builder)
    requires i < |lines| && Good(b) && Records(lines)[i].Some? && Step(b, Indents(lines)[i]) == Some(b')
    ensures Good(b') && RunFrom(lines, i, b) == RunFrom(lines, i + 1, b')
  {
    StepGood(b, Indents(lines)[i]);
  }

  /** A dump that builds has only lines that parse. */
  lemma {:induction false} EveryLineParses(lines: seq<string>, i: nat, b: Builder)
    requires i <= |lines| && Good(b) && RunFrom(lines, i, b).Ok?
    ensures forall j :: i <= j < |lines| ==> Records(lines)[j].Some?
    decreases |lines| - i
  {
    if i < |lines| {
      assert Records(lines)[i].Some?;
      var next := Step(b, Indents(lines)[i]);
      assert next.Some?;
      RunOn(lines, i, b, next.value);
      EveryLineParses(lines, i + 1, next.value);
      forall j | i <= j < |lines|
        ensures Records(lines)[j].Some?
      {
        if j != i {
          assert i + 1 <= j < |lines|;
        }
      }
    }
  }

  /** The lines attached to node `q` (Root for -1), in order. */
  function ChildrenOf(parents: seq<int>, q: int): (r: seq<nat>)
    ensures forall k :: 0 <= k < |r| ==> r[k] < |parents| && parents[r[k]] == q
    ensures forall k, l :: 0 <= k < l < |r| ==> r[k] < r[l]
    ensures forall j :: 0 <= j < |parents| && parents[j] == q ==> j in r
  {
    if parents == [] then []
    else
      var n := |parents| - 1;
      var init := ChildrenOf(parents[..n], q);
      if parents[n] == q then init + [n] else init
  }

  /**
   * Every line of a dump that parses becomes exactly one node: it is a child
   * of one earlier line or of Root, and of no other node.
   */
  lemma EachLineAttachedOnce(lines: seq<string>)
    requires RunLines(lines).Ok?
    ensures var ps := RunLines(lines).value.parents;
            forall j :: 0 <= j < |lines| ==>
              -1 <= ps[j] < j && j in ChildrenOf(ps, ps[j])
              && forall q :: q != ps[j] ==> j !in ChildrenOf(ps, q)
  {
  }

  // ----------------------------------------------- the tree, in the heap

  ghost function NodeAt(root: ViewNode, nodes: seq<ViewNode>, e: int): ViewNode
    requires -1 <= e < |nodes|
  {
    if e < 0 then root else nodes[e]
  }

  ghost function Nodes(nodes: seq<ViewNode>, idx: seq<nat>): seq<ViewNode>
    requires forall k :: 0 <= k < |idx| ==> idx[k] < |nodes|
  {
    seq(|idx|, k requires 0 <= k < |idx| => nodes[idx[k]])
  }

  /** `index` numbers the objects, so no object stands for two lines or for a line and Root. */
  ghost predicate Distinct(root: ViewNode, nodes: seq<ViewNode>, index: map<ViewNode, int>) {
    root in index && index[root] == -1
    && forall j :: 0 <= j < |nodes| ==> nodes[j] in index && index[nodes[j]] == j
  }

  /** Every line's node hangs below an earlier line's node or below Root. */
  ghost predicate Shape(nodes: seq<ViewNode>, parents: seq<int>, levels: seq<nat>) {
    |nodes| == |parents| == |levels| && forall j :: 0 <= j < |parents| ==> -1 <= parents[j] < j
  }

  /** Node `j` has the parent, level and children that `parents` and `levels` give it. */
  ghost predicate LinkedAt(root: ViewNode, nodes: seq<ViewNode>, parents: seq<int>, levels: seq<nat>, j: nat)
    requires Shape(nodes, parents, levels) && j < |nodes|
    reads nodes[j]
  {
    nodes[j].parent == NodeAt(root, nodes, parents[j]) && nodes[j].level == levels[j]
    && nodes[j].children == Nodes(nodes, ChildrenOf(parents, j))
  }

  /** The objects `root` and `nodes` form the tree that `parents` and `levels` describe. */
  ghost predicate Linked(root: ViewNode, nodes: seq<ViewNode>, parents: seq<int>, levels: seq<nat>)
    reads root, nodes
  {
    && Shape(nodes, parents, levels)
    && root.level == 0 && root.parent == null
    && root.children == Nodes(nodes, ChildrenOf(parents, -1))
    && forall j :: 0 <= j < |nodes| ==> LinkedAt(root, nodes, parents, levels, j)
  }

  /** `nodeStack` holds the objects of the builder's stack. */
  ghost predicate Mirrors(nodeStack: seq<ViewNode>, root: ViewNode, nodes: seq<ViewNode>, stack: seq<int>) {
    |nodeStack| == |stack|
    && forall k :: 0 <= k < |stack| ==> -1 <= stack[k] < |nodes| && nodeStack[k] == NodeAt(root, nodes, stack[k])
  }

  lemma ChildrenOfSnoc(parents: seq<int>, p: int, q: int)
    ensures ChildrenOf(parents + [p], q) == ChildrenOf(parents, q) + (if p == q then [|parents|] else [])
  {
    assert (parents + [p])[..|parents|] == parents;
  }

  lemma NoChildren(parents: seq<int>, q: int)
    requires forall j :: 0 <= j < |parents| ==> parents[j] != q
    ensures ChildrenOf(parents, q) == []
  {
    if parents != [] {
      NoChildren(parents[..|parents| - 1], q);
    }
  }

  lemma NodesGrow(nodes: seq<ViewNode>, node: ViewNode, idx: seq<nat>)
    requires forall k :: 0 <= k < |idx| ==> idx[k] < |nodes|
    ensures Nodes(nodes + [node], idx) == Nodes(nodes, idx)
    ensures Nodes(nodes + [node], idx + [|nodes|]) == Nodes(nodes, idx) + [node]
  {
  }

  /** `parent.addChild(node)` for a fresh line's node keeps the tree described. */
  method AttachNode(top: ViewNode, node: ViewNode, ghost root: ViewNode, ghost nodes: seq<ViewNode>,
                    ghost parents: seq<int>, ghost levels: seq<nat>, ghost p: int, ghost level: nat,
                    ghost index: map<ViewNode, int>)
    requires Linked(root, nodes, parents, levels) && Distinct(root, nodes, index)
    requires -1 <= p < |nodes| && top == NodeAt(root, nodes, p) && level == LevelOf(levels, p) + 1
    requires node != root && node !in nodes && node.children == []
    modifies top, node
    ensures Linked(root, nodes + [node], parents + [p], levels + [level])
    ensures Distinct(root, nodes + [node], index[node := |nodes|])
    ensures top.Content() == old(top.Content()) && node.Content() == old(node.Content())
    ensures root.Content() == old(root.Content())
    ensures forall j :: 0 <= j < |nodes| ==> nodes[j].Content() == old(nodes[j].Content())
  {
    top.AddChild(node);
    forall j | 0 <= j < |nodes|
      ensures nodes[j].parent == NodeAt(root, nodes, parents[j]) && nodes[j].level == levels[j]
      ensures nodes[j] != top ==> nodes[j].children == Nodes(nodes, ChildrenOf(parents, j))
    {
      assert old(LinkedAt(root, nodes, parents, levels, j));
    }
    assert p >= 0 ==> top.children == Nodes(nodes, ChildrenOf(parents, p)) + [node]
                      && old(top.level) == LevelOf(levels, p) by {
      if p >= 0 {
        assert old(LinkedAt(root, nodes, parents, levels, p));
      }
    }
    assert root.children == Nodes(nodes, ChildrenOf(parents, -1)) + (if p == -1 then [node] else []) by {
      if p != -1 {
        assert root != top;
      }
    }
    LinkedAfterAdd(root, nodes, parents, levels, top, node, p, level, index);
    DistinctGrows(root, nodes, index, node);
  }

  /** The objects after `top.addChild(node)` form the tree extended by one node below `p`. */
  lemma LinkedAfterAdd(root: ViewNode, nodes: seq<ViewNode>, parents: seq<int>, levels: seq<nat>,
                       top: ViewNode, node: ViewNode, p: int, level: nat, index: map<ViewNode, int>)
    requires Shape(nodes, parents, levels) && Distinct(root, nodes, index)
    requires -1 <= p < |nodes| && top == NodeAt(root, nodes, p) && level == LevelOf(levels, p) + 1
    requires node != root && node !in nodes
    requires forall j :: 0 <= j < |nodes| ==> nodes[j].parent == NodeAt(root, nodes, parents[j]) && nodes[j].level == levels[j]
    requires forall j :: 0 <= j < |nodes| && nodes[j] != top ==> nodes[j].children == Nodes(nodes, ChildrenOf(parents, j))
    requires p >= 0 ==> top.children == Nodes(nodes, ChildrenOf(parents, p)) + [node]
    requires root.level == 0 && root.parent == null
    requires root.children == Nodes(nodes, ChildrenOf(parents, -1)) + (if p == -1 then [node] else [])
    requires node.parent == top && node.level == level && node.children == []
    ensures Linked(root, nodes + [node], parents + [p], levels + [level])
  {
    var nodes', parents', levels' := nodes + [node], parents + [p], levels + [level];
    LinksKept(root, nodes, parents, levels, top, node, p, level, index);
    NewNodeLinked(root, nodes, parents, levels, top, node, p, level);
    forall j | 0 <= j < |nodes'|
      ensures LinkedAt(root, nodes', parents', levels', j)
    {
      if j < |nodes| {
        assert LinkedAt(root, nodes', parents', levels', j);
      }
    }
    ChildrenOfSnoc(parents, p, -1);
    NodesGrow(nodes, node, ChildrenOf(parents, -1));
    assert root.children == Nodes(nodes', ChildrenOf(parents', -1));
  }

  /** The added node hangs below `p`, one level deeper, with no children yet. */
  lemma NewNodeLinked(root: ViewNode, nodes: seq<ViewNode>, parents: seq<int>, levels: seq<nat>,
                      top: ViewNode, node: ViewNode, p: int, level: nat)
    requires Shape(nodes, parents, levels) && -1 <= p < |nodes| && top == NodeAt(root, nodes, p)
    requires node.parent == top && node.level == level && node.children == []
    ensures Shape(nodes + [node], parents + [p], levels + [level])
    ensures LinkedAt(root, nodes + [node], parents + [p], levels + [level], |nodes|)
  {
    var nodes', parents' := nodes + [node], parents + [p];
    NoChildren(parents', |nodes|);
    assert Nodes(nodes', []) == [];
    assert NodeAt(root, nodes', p) == top;
  }

  lemma DistinctGrows(root: ViewNode, nodes: seq<ViewNode>, index: map<ViewNode, int>, node: ViewNode)
    requires Distinct(root, nodes, index) && node != root && node !in nodes
    ensures Distinct(root, nodes + [node], index[node := |nodes|])
  {
    var nodes' := nodes + [node];
    assert forall i :: 0 <= i < |nodes| ==> nodes'[i] == nodes[i];
  }

  /** After `top.addChild(node)` every earlier line's node has the links the extended description gives it. */
  lemma LinksKept(root: ViewNode, nodes: seq<ViewNode>, parents: seq<int>, levels: seq<nat>,
                  top: ViewNode, node: ViewNode, p: int, level: nat, index: map<ViewNode, int>)
    requires Shape(nodes, parents, levels) && Distinct(root, nodes, index)
    requires -1 <= p < |nodes| && top == NodeAt(root, nodes, p)
    requires forall j :: 0 <= j < |nodes| ==> nodes[j].parent == NodeAt(root, nodes, parents[j]) && nodes[j].level == levels[j]
    requires forall j :: 0 <= j < |nodes| && nodes[j] != top ==> nodes[j].children == Nodes(nodes, ChildrenOf(parents, j))
    requires p >= 0 ==> top.children == Nodes(nodes, ChildrenOf(parents, p)) + [node]
    ensures Shape(nodes + [node], parents + [p], levels + [level])
    ensures forall j :: 0 <= j < |nodes| ==> LinkedAt(root, nodes + [node], parents + [p], levels + [level], j)
  {
    forall j | 0 <= j < |nodes|
      ensures LinkedAt(root, nodes + [node], parents + [p], levels + [level], j)
    {
      if nodes[j] == top {
        assert p == j;
      }
      ChildrenOfSnoc(parents, p, j);
      NodesGrow(nodes, node, ChildrenOf(parents, j));
    }
  }

  lemma MirrorsPush(nodeStack: seq<ViewNode>, root: ViewNode, nodes: seq<ViewNode>, stack: seq<int>,
                    m: nat, node: ViewNode)
    requires Mirrors(nodeStack, root, nodes, stack) && m <= |stack|
    ensures Mirrors(nodeStack[..m] + [node], root, nodes + [node], stack[..m] + [|nodes|])
    ensures Mirrors(nodeStack, root, nodes + [node], stack)
  {
  }

  lemma MirrorsIn(nodeStack: seq<ViewNode>, root: ViewNode, nodes: seq<ViewNode>, stack: seq<int>)
    requires Mirrors(nodeStack, root, nodes, stack)
    ensures forall k :: 0 <= k < |nodeStack| ==> nodeStack[k] == root || nodeStack[k] in nodes
  {
  }

  lemma StackLevels(b: Builder, root: ViewNode, nodes: seq<ViewNode>, nodeStack: seq<ViewNode>)
    requires Good(b) && Linked(root, nodes, b.parents, b.levels)
    requires Mirrors(nodeStack, root, nodes, b.stack)
    ensures forall k :: 0 <= k < |nodeStack| ==> nodeStack[k].level == k
  {
    forall k | 0 <= k < |nodeStack|
      ensures nodeStack[k].level == k
    {
      assert LevelOf(b.levels, b.stack[k]) == k;
      if b.stack[k] >= 0 {
        assert LinkedAt(root, nodes, b.parents, b.levels, b.stack[k]);
      }
    }
  }

  /**
   * The branches of `parse` for one line's node: cut the stack to the
   * entries the node goes below, then `addChild` it to the last of them and,
   * except for a line at indentation 0 at depth 0, push it.  `ok` is false
   * where the JavaScript calls `addChild` on the top of an emptied stack.
   */
  method PlaceNode(nodeStack: seq<ViewNode>, lastIndent: int, node: ViewNode, indent: Option<nat>,
                   ghost b: Builder, ghost root: ViewNode, ghost nodes: seq<ViewNode>, ghost index: map<ViewNode, int>)
    returns (ok: bool, nodeStack': seq<ViewNode>, lastIndent': int, ghost next: Builder)
    requires Good(b) && lastIndent == b.lastIndent && Mirrors(nodeStack, root, nodes, b.stack)
    requires Linked(root, nodes, b.parents, b.levels) && Distinct(root, nodes, index)
    requires node != root && node !in nodes && node.children == []
    modifies nodeStack, node
    ensures ok <==> Step(b, indent).Some?
    ensures ok ==> Step(b, indent) == Some(next) && lastIndent' == next.lastIndent
                   && Mirrors(nodeStack', root, nodes + [node], next.stack)
                   && Linked(root, nodes + [node], next.parents, next.levels)
                   && Distinct(root, nodes + [node], index[node := |nodes|])
    ensures root.Content() == old(root.Content()) && node.Content() == old(node.Content())
    ensures forall j :: 0 <= j < |nodes| ==> nodes[j].Content() == old(nodes[j].Content())
  {
    var kept, push;
    kept, push, lastIndent' := Unstack(nodeStack, lastIndent, indent, b, root, nodes);
    next := b;
    if kept == [] {
      return false, kept, lastIndent', next;
    }
    var m := |kept|;
    AddToTop(kept, node, nodeStack, b, root, nodes, b.stack[m - 1], index);
    if push {
      MirrorsPush(nodeStack, root, nodes, b.stack, m, node);
      nodeStack' := kept + [node];
      next := Push(b, m);
      assert next.parents == b.parents + [b.stack[m - 1]] && next.levels == b.levels + [m];
    } else {
      MirrorsPush(nodeStack, root, nodes, b.stack, 0, node);
      nodeStack' := kept;
      next := AttachToTop(b);
      assert next.parents == b.parents + [b.stack[m - 1]] && next.levels == b.levels + [m];
    }
    ok := true;
  }

  /**
   * The stack handling of `parse`'s four branches: what is left of `nodeStack`
   * when `addChild` is called, whether the node is pushed after it, and the
   * new `lastIndent`.
   */
  method Unstack(nodeStack: seq<ViewNode>, lastIndent: int, indent: Option<nat>,
                 ghost b: Builder, ghost root: ViewNode, ghost nodes: seq<ViewNode>)
    returns (kept: seq<ViewNode>, push: bool, lastIndent': int)
    requires Good(b) && lastIndent == b.lastIndent && Mirrors(nodeStack, root, nodes, b.stack)
    ensures kept == [] <==> Step(b, indent).None?
    ensures kept != [] ==> |kept| <= |nodeStack| && kept == nodeStack[..|kept|]
    ensures kept != [] && push ==> Step(b, indent) == Some(Push(b, |kept|)) && lastIndent' == |kept|
    ensures kept != [] && !push ==> kept == nodeStack && Step(b, indent) == Some(AttachToTop(b))
                                    && lastIndent' == lastIndent
  {
    if indent.Some? && indent.value > lastIndent {
      kept, push, lastIndent' := nodeStack, true, lastIndent + 1;
    } else if indent.Some? && indent.value < lastIndent {
      var depth;
      kept, depth := Unwind(nodeStack, lastIndent, indent.value);
      push, lastIndent' := true, depth + 1;
    } else if indent != Some(0) {
      kept, push, lastIndent' := nodeStack[..|nodeStack| - 1], true, lastIndent;
    } else {
      kept, push, lastIndent' := nodeStack, false, lastIndent;
    }
  }

  /** `while (indent <= lastIndent) { nodeStack.pop(); lastIndent--; }` */
  method Unwind(nodeStack: seq<ViewNode>, lastIndent: int, indent: nat) returns (kept: seq<ViewNode>, depth: int)
    requires |nodeStack| == lastIndent + 1 && indent < lastIndent
    ensures kept == nodeStack[..indent] && depth == indent - 1
  {
    kept, depth := nodeStack, lastIndent;
    while indent <= depth
      invariant indent - 1 <= depth <= lastIndent
      invariant kept == nodeStack[..depth + 1]
    {
      kept := kept[..|kept| - 1];
      depth := depth - 1;
    }
  }

  /** `kept[kept.length - 1].addChild(node)`, where `kept` is what is left of the stack. */
  method AddToTop(kept: seq<ViewNode>, node: ViewNode, ghost nodeStack: seq<ViewNode>,
                  ghost b: Builder, ghost root: ViewNode, ghost nodes: seq<ViewNode>, ghost p: int,
                  ghost index: map<ViewNode, int>)
    requires Good(b) && Mirrors(nodeStack, root, nodes, b.stack)
    requires 1 <= |kept| <= |nodeStack| && kept == nodeStack[..|kept|] && p == b.stack[|kept| - 1]
    requires Linked(root, nodes, b.parents, b.levels) && Distinct(root, nodes, index)
    requires node != root && node !in nodes && node.children == []
    modifies kept[|kept| - 1], node
    ensures Linked(root, nodes + [node], b.parents + [p], b.levels + [|kept|])
    ensures Distinct(root, nodes + [node], index[node := |nodes|])
    ensures root.Content() == old(root.Content()) && node.Content() == old(node.Content())
    ensures forall j :: 0 <= j < |nodes| ==> nodes[j].Content() == old(nodes[j].Content())
  {
    var m := |kept|;
    DepthLevel(b, m - 1);
    assert kept[m - 1] == nodeStack[m - 1] == NodeAt(root, nodes, p);
    AttachNode(kept[m - 1], node, root, nodes, b.parents, b.levels, p, m, index);
  }

  /** The builder's stack entry at depth `k` stands for a node of level `k`. */
  lemma DepthLevel(b: Builder, k: nat)
    requires Good(b) && k < |b.stack|
    ensures -1 <= b.stack[k] < |b.levels| && LevelOf(b.levels, b.stack[k]) == k
  {
  }

  /**
   * What `parse` has built after the first `i` lines: the builder state
   * `b` of those lines, the stack mirroring its stack, and the objects
   * forming its tree, node `j` made from line `j`.
   */
  ghost predicate Built(lines: seq<string>, outcome: Result<Builder>, i: nat, root: ViewNode,
                        nodeStack: seq<ViewNode>, lastIndent: int,
                        b: Builder, nodes: seq<ViewNode>, index: map<ViewNode, int>)
    reads root, nodes
  {
    && i <= |lines| && |nodes| == i
    && Good(b) && |b.parents| == i && RunFrom(lines, i, b) == outcome
    && lastIndent == b.lastIndent
    && Mirrors(nodeStack, root, nodes, b.stack)
    && root.className == "Root" && root.address == None
    && Distinct(root, nodes, index) && Linked(root, nodes, b.parents, b.levels)
    && forall j :: 0 <= j < i ==> Records(lines)[j].Some? && nodes[j].Holds(Records(lines)[j].value)
  }

  /**
   * `parse(null, data)` of `dump`: the Root node, whose descendants are the
   * dump's lines arranged as `RunLines` says, or the failure that stops it.
   * `nodes[j]` is the node made from line `j`.
   */
  method ParseDump(data: string) returns (r: Result<ViewNode>, ghost nodes: seq<ViewNode>)
    ensures r.Err? <==> RunLines(Split(data)).Err?
    ensures r.Err? ==> r.failure == RunLines(Split(data)).failure
    ensures r.Ok? ==>
              var lines := Split(data);
              var b := RunLines(lines).value;
              fresh(r.value) && r.value.className == "Root" && r.value.address == None
              && (forall x | x in nodes :: fresh(x))
              && |nodes| == |lines| && Linked(r.value, nodes, b.parents, b.levels)
              && forall j :: 0 <= j < |lines| ==>
                   Records(lines)[j].Some? && nodes[j].Holds(Records(lines)[j].value)
  {
    var lines := Split(data);
    var root: ViewNode, nodeStack: seq<ViewNode>, lastIndent: int;
    ghost var b: Builder, index: map<ViewNode, int>;
    root, nodeStack, lastIndent, b, nodes, index := StartParse(lines);
    var i := 0;
    while i < |lines|
      invariant fresh(root) && (forall x | x in nodes :: fresh(x))
      invariant Built(lines, RunLines(lines), i, root, nodeStack, lastIndent, b, nodes, index)
    {
      MirrorsIn(nodeStack, root, nodes, b.stack);
      var failure;
      ghost var node: ViewNode;
      failure, nodeStack, lastIndent, b, node := AddLine(lines, RunLines(lines), i, root, nodeStack, lastIndent, b, nodes, index);
      if failure.Some? {
        return Err(failure.value), nodes;
      }
      index := index[node := |nodes|];
      nodes := nodes + [node];
      i := i + 1;
    }
    return Ok(root), nodes;
  }

  /** `parse`'s set-up: the Root node, alone on the stack, at indentation 0. */
  method StartParse(lines: seq<string>)
    returns (root: ViewNode, nodeStack: seq<ViewNode>, lastIndent: int,
             ghost b: Builder, ghost nodes: seq<ViewNode>, ghost index: map<ViewNode, int>)
    ensures fresh(root) && nodeStack == [root] && nodes == []
    ensures Built(lines, RunLines(lines), 0, root, nodeStack, lastIndent, b, nodes, index)
  {
    root := new ViewNode("Root", None);
    nodeStack, lastIndent, b, nodes, index := [root], 0, Start, [], map[root := -1];
  }

  /** One turn of `parse`'s loop: line `i` read, placed in the tree, or the failure that ends the dump. */
  method AddLine(lines: seq<string>, ghost outcome: Result<Builder>, i: nat, root: ViewNode,
                 nodeStack: seq<ViewNode>, lastIndent: int, ghost b: Builder, ghost nodes: seq<ViewNode>, ghost index: map<ViewNode, int>)
    returns (failure: Option<Failure>, nodeStack': seq<ViewNode>, lastIndent': int,
             ghost b': Builder, ghost node: ViewNode)
    requires i < |lines| && Built(lines, outcome, i, root, nodeStack, lastIndent, b, nodes, index)
    modifies nodeStack
    ensures failure.Some? ==> outcome == Err(failure.value)
    ensures failure.None? ==> fresh(node)
                              && Built(lines, outcome, i + 1, root, nodeStack', lastIndent', b', nodes + [node], index[node := |nodes|])
  {
    nodeStack', lastIndent', b', node := nodeStack, lastIndent, b, root;
    var found := ReadNode(lines, i);
    if found.None? {
      return Some(Diverges), nodeStack', lastIndent', b', node;
    }
    var made := found.value;
    node := made;
    var indent := GetIndentation(lines[i]);
    IndentsAt(lines, i);
    var ok;
    ok, nodeStack', lastIndent', b' := PlaceNode(nodeStack, lastIndent, made, indent, b, root, nodes, index);
    StepGood(b, indent);
    if !ok {
      return Some(TypeError), nodeStack', lastIndent', b', node;
    }
    forall j | 0 <= j < i
      ensures Records(lines)[j].Some? && nodes[j].Holds(Records(lines)[j].value)
    {
      assert old(nodes[j].Holds(Records(lines)[j].value));
    }
    BuiltNext(lines, outcome, i, root, nodeStack', b, b', nodes, node, index);
    failure := None;
  }

  /** The facts one turn of the loop leaves are what `Built` asks of the next line. */
  lemma BuiltNext(lines: seq<string>, outcome: Result<Builder>, i: nat, root: ViewNode, nodeStack': seq<ViewNode>,
                  b: Builder, b': Builder, nodes: seq<ViewNode>, node: ViewNode, index: map<ViewNode, int>)
    requires i < |lines| && |nodes| == i && Good(b) && |b.parents| == i && RunFrom(lines, i, b) == outcome
    requires Records(lines)[i].Some? && Step(b, Indents(lines)[i]) == Some(b')
    requires Mirrors(nodeStack', root, nodes + [node], b'.stack)
    requires root.className == "Root" && root.address == None
    requires Distinct(root, nodes + [node], index[node := i]) && Linked(root, nodes + [node], b'.parents, b'.levels)
    requires forall j :: 0 <= j < i ==> Records(lines)[j].Some? && nodes[j].Holds(Records(lines)[j].value)
    requires node.Holds(Records(lines)[i].value)
    ensures Built(lines, outcome, i + 1, root, nodeStack', b'.lastIndent, b', nodes + [node], index[node := i])
  {
    RunOn(lines, i, b, b');
    StepGood(b, Indents(lines)[i]);
    HeldAfterAppend(Records(lines), nodes, node);
  }

  /** Appending the node of the next record keeps every node holding its record. */
  lemma HeldAfterAppend(records: seq<Option<NodeRecord>>, nodes: seq<ViewNode>, node: ViewNode)
    requires |nodes| < |records|
    requires forall j :: 0 <= j < |nodes| ==> records[j].Some? && nodes[j].Holds(records[j].value)
    requires records[|nodes|].Some? && node.Holds(records[|nodes|].value)
    ensures forall j :: 0 <= j < |nodes| + 1 ==> records[j].Some? && (nodes + [node])[j].Holds(records[j].value)
  {
    var nodes' := nodes + [node];
    forall j | 0 <= j < |nodes| + 1
      ensures records[j].Some? && nodes'[j].Holds(records[j].value)
    {
      if j < |nodes| {
        assert nodes'[j] == nodes[j];
      }
    }
  }

  // ------------------------------------------------------------ findView

  /** What `findView` hands its callback: the first accepted line's node, or nothing, or the exception raised. */
  datatype Search = Found(line: nat, node: NodeRecord) | NotFound | Failed(failure: Failure)

  /** What testing one dump line does to the scan. */
  datatype Verdict = Accept(node: NodeRecord) | Pass | Stop(failure: Failure)

  /** One line: parse it (a line the parser cannot finish stops everything), then ask the comparator. */
  function StepOf(cs: seq<Clause>, line: string, test: (Pattern, string) -> bool): (r: Verdict)
    ensures r.Stop? <==> ParseLine(line).None? || Eval(cs, ParseLine(line).value, test).Err?
    ensures r.Stop? && ParseLine(line).None? ==> r.failure == Diverges
    ensures r.Stop? && ParseLine(line).Some? ==> Eval(cs, ParseLine(line).value, test) == Err(r.failure)
  {
    match ParseLine(line)
    case None => Stop(Diverges)
    case Some(node) =>
      match Eval(cs, node, test)
      case Err(e) => Stop(e)
      case Ok(accepted) => if accepted then Accept(node) else Pass
  }

  /** The scan itself, over any sequence of lines and any step. */
  function ScanFrom<T>(lines: seq<T>, i: nat, step: T -> Verdict): Search
    requires i <= |lines|
    decreases |lines| - i
  {
    if i == |lines| then NotFound
    else match step(lines[i])
      case Stop(e) => Failed(e)
      case Accept(node) => Found(i, node)
      case Pass => ScanFrom(lines, i + 1, step)
  }

  /**
   * `findView` on the cleaned reply: the comparator is built first (and may
   * throw); then each line of the dump is parsed and tested in order, and
   * the first accepted one is reported.  Past the last line the callback is
   * never called (NotFound).
   */
  function FindView(comparator: Result<seq<Clause>>, data: string, test: (Pattern, string) -> bool): (r: Search)
    ensures comparator.Err? ==> r == Failed(comparator.failure)
    ensures r.Found? ==> r.line < |Split(data)| && ParseLine(Split(data)[r.line]) == Some(r.node)
  {
    match comparator
    case Err(e) => Failed(e)
    case Ok(cs) =>
      var step := line => StepOf(cs, line, test);
      ScanFound(Split(data), 0, step);
      ScanFrom(Split(data), 0, step)
  }

  /** The scan reports the first line whose step accepts; every line before it passed. */
  lemma {:induction false} ScanFound<T>(lines: seq<T>, i: nat, step: T -> Verdict)
    requires i <= |lines|
    ensures ScanFrom(lines, i, step).Found? ==>
              var k := ScanFrom(lines, i, step).line;
              i <= k < |lines| && step(lines[k]) == Accept(ScanFrom(lines, i, step).node)
              && forall j :: i <= j < k ==> step(lines[j]) == Pass
    decreases |lines| - i
  {
    if i < |lines| && step(lines[i]) == Pass {
      ScanFound(lines, i + 1, step);
    }
  }

  /** The scan finds nothing exactly when every line passes. */
  lemma {:induction false} ScanNothing<T>(lines: seq<T>, i: nat, step: T -> Verdict)
    requires i <= |lines|
    ensures ScanFrom(lines, i, step) == NotFound <==> forall j :: i <= j < |lines| ==> step(lines[j]) == Pass
    decreases |lines| - i
  {
    if i < |lines| && step(lines[i]) == Pass {
      ScanNothing(lines, i + 1, step);
    }
  }

  /** The scan fails with the failure of the first line that stops it. */
  lemma {:induction false} ScanStops<T>(lines: seq<T>, i: nat, step: T -> Verdict)
    requires i <= |lines|
    ensures ScanFrom(lines, i, step).Failed? ==>
              exists k :: i <= k < |lines| && step(lines[k]) == Stop(ScanFrom(lines, i, step).failure)
                          && forall j :: i <= j < k ==> step(lines[j]) == Pass
    decreases |lines| - i
  {
    if i < |lines| && step(lines[i]) == Pass {
      ScanStops(lines, i + 1, step);
    }
  }

  /**
   * `findView` answers with the first line, in dump order, whose node the
   * comparator accepts, after every earlier line parsed and was rejected.
   */
  lemma FindViewFirst(cs: seq<Clause>, data: string, test: (Pattern, string) -> bool)
    ensures FindView(Ok(cs), data, test).Found? ==>
              var k := FindView(Ok(cs), data, test).line;
              k < |Split(data)| && ParseLine(Split(data)[k]) == Some(FindView(Ok(cs), data, test).node)
              && Eval(cs, FindView(Ok(cs), data, test).node, test) == Ok(true)
              && forall j :: 0 <= j < k ==> Rejects(cs, Split(data)[j], test)
  {
    var step := line => StepOf(cs, line, test);
    var lines := Split(data);
    assert FindView(Ok(cs), data, test) == ScanFrom(lines, 0, step);
    ScanFound(lines, 0, step);
    var r := ScanFrom(lines, 0, step);
    if r.Found? {
      forall j | 0 <= j < r.line ensures Rejects(cs, lines[j], test) {
        PassRejects(cs, lines[j], test);
      }
      AcceptAccepts(cs, lines[r.line], test);
    }
  }

  /** `findView` never calls back exactly when every line of the dump parses and is rejected. */
  lemma FindViewNothing(cs: seq<Clause>, data: string, test: (Pattern, string) -> bool)
    ensures FindView(Ok(cs), data, test) == NotFound <==> forall j :: 0 <= j < |Split(data)| ==> Rejects(cs, Split(data)[j], test)
  {
    var step := line => StepOf(cs, line, test);
    var lines := Split(data);
    assert FindView(Ok(cs), data, test) == ScanFrom(lines, 0, step);
    ScanNothing(lines, 0, step);
    forall j | 0 <= j < |lines| ensures step(lines[j]) == Pass <==> Rejects(cs, lines[j], test) {
      assert step(lines[j]) == StepOf(cs, lines[j], test);
      PassRejects(cs, lines[j], test);
    }
    if forall j :: 0 <= j < |lines| ==> Rejects(cs, lines[j], test) {
      assert forall j :: 0 <= j < |lines| ==> step(lines[j]) == Pass;
    } else {
      var j :| 0 <= j < |lines| && !Rejects(cs, lines[j], test);
      assert step(lines[j]) != Pass;
      assert ScanFrom(lines, 0, step) != NotFound;
      assert FindView(Ok(cs), data, test) != NotFound;
      assert !Rejects(cs, Split(data)[j], test);
    }
  }

  lemma PassRejects(cs: seq<Clause>, line: string, test: (Pattern, string) -> bool)
    ensures StepOf(cs, line, test) == Pass <==> Rejects(cs, line, test)
  {
  }

  lemma AcceptAccepts(cs: seq<Clause>, line: string, test: (Pattern, string) -> bool)
    ensures StepOf(cs, line, test).Accept? ==>
              ParseLine(line) == Some(StepOf(cs, line, test).node) && Eval(cs, StepOf(cs, line, test).node, test) == Ok(true)
  {
  }

  /** The line parses and the comparator answers false on it. */
  predicate Rejects(cs: seq<Clause>, line: string, test: (Pattern, string) -> bool) {
    ParseLine(line).Some? && Eval(cs, ParseLine(line).value, test) == Ok(false)
  }

  /** A selector without fields finds nothing: the callback is never called, unless a line makes the parser loop. */
  lemma EmptyComparatorFindsNothing(data: string, test: (Pattern, string) -> bool)
    ensures FindView(Ok([]), data, test) == NotFound || FindView(Ok([]), data, test) == Failed(Diverges)
  {
    var step := line => StepOf([], line, test);
    var lines := Split(data);
    ScanFound(lines, 0, step);
    ScanStops(lines, 0, step);
    forall j | 0 <= j < |lines| ensures step(lines[j]) == Pass || step(lines[j]) == Stop(Diverges) {
      EmptyStep(lines[j], test);
    }
  }

  lemma EmptyStep(line: string, test: (Pattern, string) -> bool)
    ensures StepOf([], line, test) == Pass || StepOf([], line, test) == Stop(Diverges)
  {
  }
}
