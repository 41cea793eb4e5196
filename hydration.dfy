/**
 * Hydration boundary scanning and the process-wide hydration state.
 *
 * The sibling chain of the DOM is a `seq<Node>`; a node reference is an index
 * into it, so the next sibling of `i` is `i + 1` (when it exists) and the
 * previous sibling is `i - 1` (when `i > 0`).
 */
module Hydration {
  import opened Wrappers
  import opened Warnings

  /** Data of an opening marker comment `<!--[-->`, matched exactly. */
  const HydrationStart: string := "["
  /** First character of a closing marker comment; the rest of its data is opaque. */
  const HydrationEnd: char := ']'

  /** A DOM node as the scanner sees it: a comment (node type 8) with its data, or anything else. */
  datatype Node = Comment(data: string) | Other

  /** An opening marker: a comment whose data is exactly the START token. */
  predicate Opens(n: Node) {
    n.Comment? && n.data == HydrationStart
  }

  /** A closing marker: a comment, not START, whose first character is END (an empty comment has none). */
  predicate Closes(n: Node) {
    n.Comment? && n.data != HydrationStart && |n.data| > 0 && n.data[0] == HydrationEnd
  }

  /** The step a node makes to the nesting depth. */
  function Weight(n: Node): int {
    if Opens(n) then 1 else if Closes(n) then -1 else 0
  }

  /** Number of opening markers in `s`. */
  function Starts(s: seq<Node>): nat {
    if s == [] then 0 else Starts(s[..|s| - 1]) + (if Opens(s[|s| - 1]) then 1 else 0)
  }

  /** Number of closing markers in `s`. */
  function Ends(s: seq<Node>): nat {
    if s == [] then 0 else Ends(s[..|s| - 1]) + (if Closes(s[|s| - 1]) then 1 else 0)
  }

  /** Nesting depth after `s`: opening markers minus closing markers. */
  function Depth(s: seq<Node>): int {
    Starts(s) - Ends(s)
  }

  /** `s` closes every marker it opens, and no prefix closes more than it opened. */
  ghost predicate Balanced(s: seq<Node>) {
    Depth(s) == 0 && forall p :: 0 <= p <= |s| ==> Depth(s[..p]) >= 0
  }

  /** Index `k` holds a closing marker met at depth zero, counting from just after `open`. */
  ghost predicate ClosesAt(chain: seq<Node>, open: nat, k: nat) {
    open < k < |chain| && Closes(chain[k]) && Depth(chain[open + 1..k]) == 0
  }

  /** `j` is the first closing marker after `open` met at depth zero. */
  ghost predicate IsMatchingEnd(chain: seq<Node>, open: nat, j: nat) {
    ClosesAt(chain, open, j) && forall k :: open < k < j ==> !ClosesAt(chain, open, k)
  }

  /** No sibling after `open` is a closing marker met at depth zero. */
  ghost predicate NoMatchingEnd(chain: seq<Node>, open: nat) {
    forall k :: open < k < |chain| ==> !ClosesAt(chain, open, k)
  }

  /** The node references `lo, lo + 1, ..., hi - 1`, in document order. */
  function Between(lo: nat, hi: nat): seq<nat>
    requires lo <= hi
  {
    seq(hi - lo, i requires 0 <= i < hi - lo => lo + i)
  }

  /** The first node of a buffer; `nodes && nodes[0]` is null or undefined otherwise. */
  function FirstOf(nodes: Option<seq<nat>>): Option<nat> {
    if nodes.Some? && |nodes.value| > 0 then Some(nodes.value[0]) else None
  }

  /** What `hydrate_anchor` hands back: a node, or the thrown `HYDRATION_ERROR`. */
  datatype AnchorResult = Anchor(node: nat) | Mismatch(location: Option<string>)

  /** The module-level variables `hydrating`, `hydrate_nodes` and `hydrate_start`. */
  class HydrationState {
    var hydrating: bool
    var hydrateNodes: Option<seq<nat>>
    var hydrateStart: Option<nat>

    /** The tracked start is the first node of the buffer (or absent with it). */
    predicate Consistent()
      reads this
    {
      hydrateStart == FirstOf(hydrateNodes)
    }

    /** The initial values: not hydrating, `hydrate_nodes` null, `hydrate_start` undefined. */
    constructor ()
      ensures !hydrating && hydrateNodes == None && hydrateStart == None
      ensures Consistent()
    {
      hydrating := false;
      hydrateNodes := None;
      hydrateStart := None;
    }

    method SetHydrating(value: bool)
      modifies this`hydrating
      ensures hydrating == value
      ensures hydrateNodes == old(hydrateNodes) && hydrateStart == old(hydrateStart)
      ensures old(Consistent()) ==> Consistent()
    {
      hydrating := value;
    }

    method SetHydrateNodes(nodes: Option<seq<nat>>)
      modifies this`hydrateNodes, this`hydrateStart
      ensures hydrateNodes == nodes
      ensures nodes.Some? && |nodes.value| > 0 ==> hydrateStart == Some(nodes.value[0])
      ensures nodes.None? || nodes.value == [] ==> hydrateStart == None
      ensures hydrating == old(hydrating)
      ensures Consistent()
    {
      hydrateNodes := nodes;
      hydrateStart := FirstOf(nodes);
    }

    /**
     * The previous sibling of the tracked start, or the start itself when it has
     * none. `None` when no start is tracked: the source then reads a property of
     * `undefined` and throws.
     */
    function GetStart(): (r: Option<nat>)
      reads this
      ensures r.None? <==> hydrateStart.None?
      ensures r.Some? && hydrateStart.value > 0 ==> r.value + 1 == hydrateStart.value
      ensures r.Some? && hydrateStart.value == 0 ==> r.value == 0
    {
      match hydrateStart
      case None => None
      case Some(s) => if s > 0 then Some(s - 1) else Some(s)
    }

    /**
     * Given an opening marker at `node`, find its closing marker, capture every
     * sibling strictly between the two as the hydration buffer and return the
     * closing marker. Any other node is returned as it is. When the siblings
     * run out first, a mismatch is reported and the scan fails.
     * `location` is the development-only source location of the parent, if known.
     */
    method HydrateAnchor(chain: seq<Node>, node: nat, location: Option<string>, log: WarningLog)
        returns (r: AnchorResult)
      requires node < |chain|
      modifies this`hydrateNodes, this`hydrateStart, log
      ensures hydrating == old(hydrating)
      ensures old(Consistent()) ==> Consistent()
      // A non-comment, or a comment that is not exactly START, is returned unchanged.
      ensures !Opens(chain[node]) ==> r == Anchor(node) && unchanged(this, log)
      // On success: the first closing marker at depth zero, strictly later, a comment starting with END.
      ensures Opens(chain[node]) && r.Anchor? ==>
        && IsMatchingEnd(chain, node, r.node)
        && node < r.node && chain[r.node].Comment? && chain[r.node].data[0] == HydrationEnd
      // On success: the buffer is exactly the siblings strictly between the markers.
      ensures Opens(chain[node]) && r.Anchor? ==>
        && hydrateNodes == Some(Between(node + 1, r.node))
        && hydrateStart == (if r.node == node + 1 then None else Some(node + 1))
        && Consistent()
        && log.entries == old(log.entries)
      // With a non-empty buffer, the anchor resolver now yields the opening marker.
      ensures Opens(chain[node]) && r.Anchor? && node + 1 < r.node ==> GetStart() == Some(node)
      // Failure exactly when no closing marker is met at depth zero; the state is untouched.
      ensures Opens(chain[node]) ==> (r.Mismatch? <==> NoMatchingEnd(chain, node))
      ensures r.Mismatch? ==>
        && r.location == location
        && hydrateNodes == old(hydrateNodes) && hydrateStart == old(hydrateStart)
        && log.entries == old(log.entries) + [HydrationMismatch(location)]
    {
      if chain[node].Other? {
        return Anchor(node);
      }
      if chain[node].data != HydrationStart {
        return Anchor(node);
      }

      var nodes: seq<nat> := [];
      var depth: int := 0;
      var current := node + 1;
      while current < |chain|
        invariant node + 1 <= current <= |chain|
        invariant nodes == Between(node + 1, current)
        invariant 0 <= depth
        invariant depth == Depth(chain[node + 1..current])
        invariant forall k :: node < k < current ==> !ClosesAt(chain, node, k)
        invariant unchanged(this, log)
      {
        DepthStep(chain, node + 1, current);
        var cur := chain[current];
        if cur.Comment? {
          var data := cur.data;
          if data == HydrationStart {
            depth := depth + 1;
          } else if |data| > 0 && data[0] == HydrationEnd {
            if depth == 0 {
              assert ClosesAt(chain, node, current);
              hydrateNodes := Some(nodes);
              hydrateStart := if |nodes| > 0 then Some(nodes[0]) else None;
              return Anchor(current);
            }
            depth := depth - 1;
          }
        }
        nodes := nodes + [current];
        current := current + 1;
      }

      log.entries := log.entries + [HydrationMismatch(location)];
      return Mismatch(location);
    }
  }

  /**
   * `<!--[--><!----><!--[--><!--]--><!--]a-->`: the empty comment is not a
   * closing marker, the inner pair is collected, and the outer `]a` (matched
   * on its first character) closes the region.
   */
  method NestedAnchorExample() returns (r: AnchorResult, nodes: Option<seq<nat>>, start: Option<nat>)
    ensures r == Anchor(4) && nodes == Some([1, 2, 3]) && start == Some(0)
  {
    var chain := [Comment(HydrationStart), Comment(""), Comment(HydrationStart), Comment([HydrationEnd]), Comment([HydrationEnd, 'a'])];
    var state := new HydrationState();
    var log := new WarningLog();
    assert chain[1..1] == [];
    DepthStep(chain, 1, 1);
    DepthStep(chain, 1, 2);
    DepthStep(chain, 1, 3);
    assert ClosesAt(chain, 0, 4);
    r := state.HydrateAnchor(chain, 0, None, log);
    nodes := state.hydrateNodes;
    start := state.GetStart();
    assert Between(1, 4) == [1, 2, 3];
  }

  /** `<!--[--><!--]-->`: an empty region; the buffer is empty and no start is tracked. */
  method EmptyRegionExample() returns (r: AnchorResult, nodes: Option<seq<nat>>, start: Option<nat>)
    ensures r == Anchor(1) && nodes == Some([]) && start == None
  {
    var chain := [Comment(HydrationStart), Comment([HydrationEnd])];
    var state := new HydrationState();
    var log := new WarningLog();
    assert ClosesAt(chain, 0, 1);
    r := state.HydrateAnchor(chain, 0, None, log);
    nodes := state.hydrateNodes;
    start := state.hydrateStart;
  }

  /** Extending a slice of the chain by one node moves the counts by that node alone. */
  lemma DepthStep(chain: seq<Node>, lo: nat, hi: nat)
    requires lo <= hi < |chain|
    ensures Starts(chain[lo..hi + 1]) == Starts(chain[lo..hi]) + (if Opens(chain[hi]) then 1 else 0)
    ensures Ends(chain[lo..hi + 1]) == Ends(chain[lo..hi]) + (if Closes(chain[hi]) then 1 else 0)
    ensures Depth(chain[lo..hi + 1]) == Depth(chain[lo..hi]) + Weight(chain[hi])
  {
    assert chain[lo..hi + 1][..hi - lo] == chain[lo..hi];
  }

  /** Counting markers distributes over concatenation. */
  lemma {:induction false} CountsConcat(a: seq<Node>, b: seq<Node>)
    ensures Starts(a + b) == Starts(a) + Starts(b)
    ensures Ends(a + b) == Ends(a) + Ends(b)
  {
    if b == [] {
      assert a + b == a;
    } else {
      var init := b[..|b| - 1];
      CountsConcat(a, init);
      assert (a + b)[..|a + b| - 1] == a + init;
    }
  }

  /** One step of a prefix of `s` moves the depth by the next node's weight. */
  lemma PrefixStep(s: seq<Node>, p: nat)
    requires p < |s|
    ensures Depth(s[..p + 1]) == Depth(s[..p]) + Weight(s[p])
  {
    DepthStep(s, 0, p);
    assert s[0..p + 1] == s[..p + 1] && s[0..p] == s[..p];
  }

  /**
   * The matching closing marker is characterised by the buffer alone: `j` is
   * the first closing marker at depth zero exactly when it is a closing marker
   * and the siblings strictly between `open` and `j` are balanced.
   */
  lemma MatchingEndIffBalanced(chain: seq<Node>, open: nat, j: nat)
    requires open < j < |chain|
    ensures IsMatchingEnd(chain, open, j) <==> Closes(chain[j]) && Balanced(chain[open + 1..j])
  {
    var s := chain[open + 1..j];
    if IsMatchingEnd(chain, open, j) {
      var p := 0;
      while p < |s|
        invariant 0 <= p <= |s|
        invariant forall q :: 0 <= q <= p ==> Depth(s[..q]) >= 0
      {
        PrefixStep(s, p);
        assert s[..p] == chain[open + 1..open + 1 + p];
        assert !ClosesAt(chain, open, open + 1 + p);
        p := p + 1;
      }
      assert s[..|s|] == s;
    }
    if Closes(chain[j]) && Balanced(s) {
      forall k | open < k < j
        ensures !ClosesAt(chain, open, k)
      {
        var p := k - open - 1;
        PrefixStep(s, p);
        assert s[..p] == chain[open + 1..k];
        assert Depth(s[..p + 1]) >= 0;
      }
    }
  }

  /** A region enclosed in one marker pair: `[`, then `s`, then `]`. */
  function Wrap(s: seq<Node>): seq<Node> {
    [Comment(HydrationStart)] + s + [Comment([HydrationEnd])]
  }

  /** `n` fully nested marker pairs: `[ [ ... [ ] ... ] ]`. */
  function Nest(n: nat): seq<Node> {
    if n == 0 then [] else Wrap(Nest(n - 1))
  }

  /** Wrapping adds one opening and one closing marker. */
  lemma WrapCounts(s: seq<Node>)
    ensures |Wrap(s)| == |s| + 2
    ensures Starts(Wrap(s)) == Starts(s) + 1 && Ends(Wrap(s)) == Ends(s) + 1
  {
    var o, c := [Comment(HydrationStart)], [Comment([HydrationEnd])];
    assert Wrap(s) == o + s + c;
    assert o[..0] == [] && c[..0] == [];
    assert Starts(o) == 1 && Ends(o) == 0;
    assert Starts(c) == 0 && Ends(c) == 1;
    CountsConcat(o, s);
    CountsConcat(o + s, c);
  }

  /** Wrapping a balanced region gives a balanced region. */
  lemma WrapBalanced(s: seq<Node>)
    requires Balanced(s)
    ensures Balanced(Wrap(s))
  {
    var w := Wrap(s);
    var o := [Comment(HydrationStart)];
    assert o[..0] == [];
    assert Starts(o) == 1 && Ends(o) == 0;
    WrapCounts(s);
    forall p | 0 <= p <= |w|
      ensures Depth(w[..p]) >= 0
    {
      if p == 0 {
        assert w[..p] == [];
      } else if p < |w| {
        assert w[..p] == o + s[..p - 1];
        CountsConcat(o, s[..p - 1]);
      } else {
        assert w[..p] == w;
      }
    }
  }

  /** `Nest(n)` is balanced and holds `n` opening and `n` closing markers. */
  lemma {:induction false} NestBalanced(n: nat)
    ensures |Nest(n)| == 2 * n
    ensures Starts(Nest(n)) == n && Ends(Nest(n)) == n
    ensures Balanced(Nest(n))
  {
    if n > 0 {
      NestBalanced(n - 1);
      WrapCounts(Nest(n - 1));
      WrapBalanced(Nest(n - 1));
    }
  }

  /** In a balanced region every closing marker is met at a positive depth. */
  lemma BalancedClosesDeep(s: seq<Node>)
    requires Balanced(s)
    ensures forall i :: 0 <= i < |s| && Closes(s[i]) ==> Depth(s[..i]) > 0
  {
    forall i | 0 <= i < |s| && Closes(s[i])
      ensures Depth(s[..i]) > 0
    {
      PrefixStep(s, i);
    }
  }

  /**
   * A balanced region enclosed in one marker pair, anywhere in a chain, is
   * closed by the outer closing marker, whatever precedes or follows the pair.
   */
  lemma WrappedRegionMatches(pre: seq<Node>, s: seq<Node>, post: seq<Node>)
    requires Balanced(s)
    ensures (pre + Wrap(s) + post)[|pre| + 1..|pre| + |s| + 1] == s
    ensures IsMatchingEnd(pre + Wrap(s) + post, |pre|, |pre| + |s| + 1)
  {
    var chain := pre + Wrap(s) + post;
    WrapCounts(s);
    assert chain[|pre| + 1..|pre| + |s| + 1] == s;
    assert chain[|pre| + |s| + 1] == Comment([HydrationEnd]);
    assert Closes(chain[|pre| + |s| + 1]);
    MatchingEndIffBalanced(chain, |pre|, |pre| + |s| + 1);
  }

  /** The same, for a chain that is exactly the wrapped region. */
  lemma WrappedChainMatches(s: seq<Node>)
    requires Balanced(s)
    ensures Wrap(s)[1..|s| + 1] == s
    ensures IsMatchingEnd(Wrap(s), 0, |s| + 1)
  {
    WrappedRegionMatches([], s, []);
    assert [] + Wrap(s) + [] == Wrap(s);
  }

  /**
   * Depth law: when an opening marker encloses `n` nested marker pairs, the
   * scan passes over all `n` inner closing markers, each at a positive depth
   * (they are collected into the buffer), and matches the outer closing marker.
   */
  lemma NestedDepthLaw(n: nat)
    ensures IsMatchingEnd(Nest(n + 1), 0, 2 * n + 1)
    ensures Nest(n + 1)[1..2 * n + 1] == Nest(n)
    ensures Balanced(Nest(n)) && Ends(Nest(n)) == n
    ensures forall i :: 0 <= i < |Nest(n)| && Closes(Nest(n)[i]) ==> Depth(Nest(n)[..i]) > 0
  {
    NestBalanced(n);
    assert Nest(n + 1) == Wrap(Nest(n));
    WrappedChainMatches(Nest(n));
    BalancedClosesDeep(Nest(n));
  }
}
