/** Properties of evaluation: fail-fast sequencing, `if` branching, blocks
    and their scopes, function literals and closures. */
module EvalProperties {
  import opened Errors
  import opened Ast
  import opened Values
  import opened Scopes
  import opened Evaluation

  /** Fail-fast: once a prefix of a list (of elements, arguments or block
      expressions) fails, the nodes after it are never evaluated. */
  lemma {:induction false} EvalSeqStops(h: Host, st: State, nodes: seq<Node>, more: seq<Node>, sc: ScopeId, fuel: nat)
    requires Linked(st.frames) && sc < |st.frames|
    requires EvalSeq(h, st, nodes, sc, fuel).0.Err?
    ensures EvalSeq(h, st, nodes + more, sc, fuel) == EvalSeq(h, st, nodes, sc, fuel)
    decreases |more|
  {
    if more == [] {
      assert nodes + more == nodes;
    } else {
      var all := nodes + more;
      assert all[..|all| - 1] == nodes + more[..|more| - 1];
      EvalSeqStops(h, st, nodes, more[..|more| - 1], sc, fuel);
    }
  }

  /** The same for the entries of an object literal. */
  lemma {:induction false} EvalEntriesStops(h: Host, st: State, entries: seq<ObjectEntry>, more: seq<ObjectEntry>,
                                            sc: ScopeId, fuel: nat)
    requires Linked(st.frames) && sc < |st.frames|
    requires EvalEntries(h, st, entries, sc, fuel).0.Err?
    ensures EvalEntries(h, st, entries + more, sc, fuel) == EvalEntries(h, st, entries, sc, fuel)
    decreases |more|
  {
    if more == [] {
      assert entries + more == entries;
    } else {
      var all := entries + more;
      assert all[..|all| - 1] == entries + more[..|more| - 1];
      EvalEntriesStops(h, st, entries, more[..|more| - 1], sc, fuel);
    }
  }

  /** Evaluating `a + b` is evaluating `a`, then `b` from the state `a`
      left: the values come in order, and the first error wins. */
  lemma {:induction false} EvalSeqAppend(h: Host, st: State, a: seq<Node>, b: seq<Node>, sc: ScopeId, fuel: nat)
    requires Linked(st.frames) && sc < |st.frames|
    ensures var (ra, st1) := EvalSeq(h, st, a, sc, fuel);
            EvalSeq(h, st, a + b, sc, fuel) ==
              if ra.Err? then (ra, st1)
              else
                var (rb, st2) := EvalSeq(h, st1, b, sc, fuel);
                (if rb.Ok? then Ok(ra.value + rb.value) else Err(rb.error), st2)
    decreases |b|
  {
    var (ra, st1) := EvalSeq(h, st, a, sc, fuel);
    if ra.Err? {
      EvalSeqStops(h, st, a, b, sc, fuel);
    } else if b == [] {
      assert a + b == a;
      assert ra.value + [] == ra.value;
    } else {
      var b', x := b[..|b| - 1], b[|b| - 1];
      var ab := a + b;
      assert ab[..|ab| - 1] == a + b' && ab[|ab| - 1] == x;
      EvalSeqAppend(h, st, a, b', sc, fuel);
      var (rb', st2) := EvalSeq(h, st1, b', sc, fuel);
      if rb'.Ok? {
        var (rx, st3) := Eval(h, st2, x, sc, fuel);
        if rx.Ok? {
          assert ra.value + rb'.value + [rx.value] == ra.value + (rb'.value + [rx.value]);
        }
      }
    }
  }

  /** Value `i` of a successful evaluation of a node list is the value of
      node `i`, evaluated in the state that the nodes before it left. */
  lemma EvalSeqAt(h: Host, st: State, nodes: seq<Node>, i: nat, sc: ScopeId, fuel: nat)
    requires Linked(st.frames) && sc < |st.frames| && i < |nodes|
    requires EvalSeq(h, st, nodes, sc, fuel).0.Ok?
    ensures var (rp, st1) := EvalSeq(h, st, nodes[..i], sc, fuel);
            && rp.Ok?
            && Eval(h, st1, nodes[i], sc, fuel).0.Ok?
            && EvalSeq(h, st, nodes, sc, fuel).0.value[i] == Eval(h, st1, nodes[i], sc, fuel).0.value
  {
    var pre := nodes[..i + 1];
    assert nodes == pre + nodes[i + 1..];
    assert pre[..|pre| - 1] == nodes[..i] && pre[|pre| - 1] == nodes[i];
    EvalSeqAppend(h, st, pre, nodes[i + 1..], sc, fuel);
  }

  /** Element `i` of a list literal is the value of element expression `i`,
      evaluated after the ones before it. */
  lemma ListLiteralAt(h: Host, st: State, elems: seq<Node>, i: nat, sc: ScopeId, fuel: nat)
    requires Linked(st.frames) && sc < |st.frames| && i < |elems|
    requires ListLiteral(h, st, elems, sc, fuel).0.Ok?
    ensures var r := ListLiteral(h, st, elems, sc, fuel).0.value;
            var st1 := EvalSeq(h, st, elems[..i], sc, fuel).1;
            && r.List? && |r.elems| == |elems|
            && Eval(h, st1, elems[i], sc, fuel).0 == Ok(r.elems[i])
  {
    EvalSeqAt(h, st, elems, i, sc, fuel);
  }

  /** `[1, 2]` is `[1, 2]`, in that order. */
  lemma ListOrderExample(h: Host, st: State, sc: ScopeId, fuel: nat)
    requires Linked(st.frames) && sc < |st.frames| && fuel >= 2
    ensures Eval(h, st, ListNode([NumberNode(true, 1, 0), NumberNode(true, 2, 0)]), sc, fuel)
            == (Ok(List([Int(1), Int(2)])), st)
  {
    var one, two := NumberNode(true, 1, 0), NumberNode(true, 2, 0);
    var ns, f := [one, two], fuel - 1;
    EvalLiteral(h, st, one, sc, f);
    EvalLiteral(h, st, two, sc, f);
    var ns1 := [one];
    assert ns[..|ns| - 1] == ns1 && ns[|ns| - 1] == two;
    assert ns1[..|ns1| - 1] == [] && ns1[|ns1| - 1] == one;
    assert EvalSeq(h, st, [], sc, f) == (Ok([]), st);
    assert [] + [Int(1)] == [Int(1)];
    assert EvalSeq(h, st, ns1, sc, f) == (Ok([Int(1)]), st);
    assert [Int(1)] + [Int(2)] == [Int(1), Int(2)];
    assert EvalSeq(h, st, ns, sc, f) == (Ok([Int(1), Int(2)]), st);
    assert Step(h, st, ListNode(ns), sc, f) == ListLiteral(h, st, ns, sc, f);
  }

  /** The entries `a + b` of an object literal are the entries `a`, then
      the entries `b` from the state `a` left; an entry of `b` overrides an
      entry of `a` with the same key, and the first error wins. */
  lemma {:induction false} EvalEntriesAppend(h: Host, st: State, a: seq<ObjectEntry>, b: seq<ObjectEntry>,
                                             sc: ScopeId, fuel: nat)
    requires Linked(st.frames) && sc < |st.frames|
    ensures var (ra, st1) := EvalEntries(h, st, a, sc, fuel);
            EvalEntries(h, st, a + b, sc, fuel) ==
              if ra.Err? then (ra, st1)
              else
                var (rb, st2) := EvalEntries(h, st1, b, sc, fuel);
                (if rb.Ok? then Ok(ra.value + rb.value) else Err(rb.error), st2)
    decreases |b|
  {
    var (ra, st1) := EvalEntries(h, st, a, sc, fuel);
    if ra.Err? {
      EvalEntriesStops(h, st, a, b, sc, fuel);
    } else if b == [] {
      assert a + b == a;
      assert ra.value + map[] == ra.value;
    } else {
      var b', x := b[..|b| - 1], b[|b| - 1];
      var ab := a + b;
      assert ab[..|ab| - 1] == a + b' && ab[|ab| - 1] == x;
      EvalEntriesAppend(h, st, a, b', sc, fuel);
      var (rb', st2) := EvalEntries(h, st1, b', sc, fuel);
      if rb'.Ok? {
        var (rx, st3) := EvalEntry(h, st2, x, sc, fuel);
        if rx.Ok? {
          UnionThenUpdate(ra.value, rb'.value, rx.value.0, rx.value.1);
        }
      }
    }
  }

  lemma UnionThenUpdate<K, V>(m: map<K, V>, n: map<K, V>, k: K, v: V)
    ensures (m + n)[k := v] == m + n[k := v]
  {
  }

  /** A repeated key keeps the value of its last entry: `{a: 1, a: 2}` is
      `{a: 2}`. */
  lemma RepeatedKeyExample(h: Host, st: State, sc: ScopeId, fuel: nat)
    requires Linked(st.frames) && sc < |st.frames| && fuel >= 2
    ensures Eval(h, st, ObjectNode([ObjectEntry(IdentifierNode("a"), NumberNode(true, 1, 0)),
                                    ObjectEntry(IdentifierNode("a"), NumberNode(true, 2, 0))]), sc, fuel)
            == (Ok(Object(map["a" := Int(2)])), st)
  {
    var one, two := NumberNode(true, 1, 0), NumberNode(true, 2, 0);
    var e1, e2 := ObjectEntry(IdentifierNode("a"), one), ObjectEntry(IdentifierNode("a"), two);
    var es, f := [e1, e2], fuel - 1;
    EvalLiteral(h, st, one, sc, f);
    EvalLiteral(h, st, two, sc, f);
    assert EvalEntry(h, st, e1, sc, f) == (Ok(("a", Int(1))), st);
    assert EvalEntry(h, st, e2, sc, f) == (Ok(("a", Int(2))), st);
    var es1 := [e1];
    assert es[..|es| - 1] == es1 && es[|es| - 1] == e2;
    assert es1[..|es1| - 1] == [] && es1[|es1| - 1] == e1;
    assert EvalEntries(h, st, [], sc, f) == (Ok(map[]), st);
    assert map[]["a" := Int(1)] == map["a" := Int(1)];
    assert EvalEntries(h, st, es1, sc, f) == (Ok(map["a" := Int(1)]), st);
    assert map["a" := Int(1)]["a" := Int(2)] == map["a" := Int(2)];
    assert EvalEntries(h, st, es, sc, f) == (Ok(map["a" := Int(2)]), st);
    assert Step(h, st, ObjectNode(es), sc, f) == ObjectLiteral(h, st, es, sc, f);
  }

  // ------------------------------------------------------------ literals

  /** The nodes that evaluate to a constant and touch no state. */
  predicate Literal(n: Node)
  {
    n.EmptyNode? || n.NullNode? || n.StringNode? || n.NumberNode? || n.BooleanNode? || n.AtomNode?
  }

  function LiteralValue(n: Node): (r: Value)
    requires Literal(n)
  {
    match n
    case EmptyNode => Empty
    case NullNode => Null
    case StringNode(s) => Str(s)
    case NumberNode(isInteger, i, x) => if isInteger then Int(i) else Float(x)
    case BooleanNode(b) => Bool(b)
    case AtomNode(a) => Atom(a)
  }

  lemma EvalLiteral(h: Host, st: State, n: Node, sc: ScopeId, fuel: nat)
    requires Linked(st.frames) && sc < |st.frames| && Literal(n) && fuel > 0
    ensures Eval(h, st, n, sc, fuel) == (Ok(LiteralValue(n)), st)
  {
  }

  // ------------------------------------------------------------ if

  /** An independent account of the branch scan: the position of the first
      branch whose target the subject `Eq`s, `None` when there is none,
      evaluating the targets in order up to that branch and no further. */
  function FirstMatch(h: Host, st: State, cond: Value, branches: seq<IfBranch>, sc: ScopeId, fuel: nat)
    : (out: (Result<Option<nat>>, State))
    requires Linked(st.frames) && sc < |st.frames|
    ensures Grows(st, out.1)
    ensures out.0.Ok? && out.0.value.Some? ==> out.0.value.value < |branches|
    decreases |branches|
  {
    if branches == [] then (Ok(None), st)
    else
      var (rt, st1) := Eval(h, st, branches[0].target, sc, fuel);
      if rt.Err? then (Err(rt.error), st1)
      else if Eq(cond, rt.value) then (Ok(Some(0)), st1)
      else
        var (rk, st2) := FirstMatch(h, st1, cond, branches[1..], sc, fuel);
        (Shift(rk, 1), st2)
  }

  /** Moves a found position `k` places on. */
  function Shift(r: Result<Option<nat>>, k: nat): (out: Result<Option<nat>>)
  {
    if r.Ok? && r.value.Some? then Ok(Some(r.value.value + k)) else r
  }

  /** The branches of an `if` give the body of the first matching branch,
      evaluated after the targets up to it; `Null` when none matches; the
      error of a target that fails. */
  lemma {:induction false} BranchesByFirstMatch(h: Host, st: State, cond: Value, branches: seq<IfBranch>,
                                                sc: ScopeId, fuel: nat)
    requires Linked(st.frames) && sc < |st.frames|
    ensures var (rk, st1) := FirstMatch(h, st, cond, branches, sc, fuel);
            EvalBranches(h, st, cond, branches, sc, fuel) ==
              if rk.Err? then (Err(rk.error), st1)
              else if rk.value.None? then (Ok(Null), st1)
              else Eval(h, st1, branches[rk.value.value].body, sc, fuel)
    decreases |branches|
  {
    if branches != [] {
      var (rt, st1) := Eval(h, st, branches[0].target, sc, fuel);
      if rt.Ok? && !Eq(cond, rt.value) {
        BranchesByFirstMatch(h, st1, cond, branches[1..], sc, fuel);
        var (rk, st2) := FirstMatch(h, st1, cond, branches[1..], sc, fuel);
        if rk.Ok? && rk.value.Some? {
          assert branches[1..][rk.value.value] == branches[rk.value.value + 1];
        }
      }
    }
  }

  /** One step of the scan, past a first target that does not match. */
  lemma FirstMatchStep(h: Host, st: State, cond: Value, branches: seq<IfBranch>, sc: ScopeId, fuel: nat)
    requires Linked(st.frames) && sc < |st.frames| && branches != []
    requires var rt := Eval(h, st, branches[0].target, sc, fuel).0; rt.Ok? && !Eq(cond, rt.value)
    ensures var st1 := Eval(h, st, branches[0].target, sc, fuel).1;
            var rest := FirstMatch(h, st1, cond, branches[1..], sc, fuel);
            FirstMatch(h, st, cond, branches, sc, fuel) == (Shift(rest.0, 1), rest.1)
  {
  }

  /** The state in which the target of branch `k` is evaluated: the one
      left by scanning the branches before it. */
  function Before(h: Host, st: State, cond: Value, branches: seq<IfBranch>, k: nat, sc: ScopeId, fuel: nat)
    : (st': State)
    requires Linked(st.frames) && sc < |st.frames| && k <= |branches|
    ensures Grows(st, st')
  {
    FirstMatch(h, st, cond, branches[..k], sc, fuel).1
  }

  /** The evaluated target of branch `k`, in that state. */
  function TargetAt(h: Host, st: State, cond: Value, branches: seq<IfBranch>, k: nat, sc: ScopeId, fuel: nat)
    : (out: (Result<Value>, State))
    requires Linked(st.frames) && sc < |st.frames| && k < |branches|
    ensures Grows(st, out.1)
  {
    Eval(h, Before(h, st, cond, branches, k, sc, fuel), branches[k].target, sc, fuel)
  }

  /** The target of branch `k` evaluates and the subject is not `Eq` to it. */
  ghost predicate Misses(h: Host, st: State, cond: Value, branches: seq<IfBranch>, k: nat, sc: ScopeId, fuel: nat)
    requires Linked(st.frames) && sc < |st.frames| && k < |branches|
  {
    var t := TargetAt(h, st, cond, branches, k, sc, fuel).0;
    t.Ok? && !Eq(cond, t.value)
  }

  /** The target of branch `k` evaluates and the subject is `Eq` to it. */
  ghost predicate Hits(h: Host, st: State, cond: Value, branches: seq<IfBranch>, k: nat, sc: ScopeId, fuel: nat)
    requires Linked(st.frames) && sc < |st.frames| && k < |branches|
  {
    var t := TargetAt(h, st, cond, branches, k, sc, fuel).0;
    t.Ok? && Eq(cond, t.value)
  }

  /** Past a first branch that misses, branch `k` is branch `k - 1` of the
      rest, scanned from the state the first target left. */
  lemma ShiftTarget(h: Host, st: State, cond: Value, branches: seq<IfBranch>, k: nat, sc: ScopeId, fuel: nat)
    requires Linked(st.frames) && sc < |st.frames| && 1 <= k < |branches|
    requires var rt := Eval(h, st, branches[0].target, sc, fuel).0; rt.Ok? && !Eq(cond, rt.value)
    ensures var st1 := Eval(h, st, branches[0].target, sc, fuel).1;
            TargetAt(h, st, cond, branches, k, sc, fuel) == TargetAt(h, st1, cond, branches[1..], k - 1, sc, fuel)
  {
    var st1 := Eval(h, st, branches[0].target, sc, fuel).1;
    var pre := branches[..k];
    assert pre[0] == branches[0];
    assert pre[1..] == branches[1..][..k - 1];
    FirstMatchStep(h, st, cond, pre, sc, fuel);
    assert branches[1..][k - 1] == branches[k];
  }

  /** The target of the first branch is evaluated in the starting state. */
  lemma TargetAtZero(h: Host, st: State, cond: Value, branches: seq<IfBranch>, sc: ScopeId, fuel: nat)
    requires Linked(st.frames) && sc < |st.frames| && 0 < |branches|
    ensures TargetAt(h, st, cond, branches, 0, sc, fuel) == Eval(h, st, branches[0].target, sc, fuel)
  {
    assert branches[..0] == [];
  }

  /** Past a first branch that misses, the first `k` branches all miss
      exactly when the first `k - 1` of the rest do. */
  lemma MissesShifted(h: Host, st: State, cond: Value, branches: seq<IfBranch>, k: nat, sc: ScopeId, fuel: nat)
    requires Linked(st.frames) && sc < |st.frames| && 1 <= k <= |branches|
    requires var rt := Eval(h, st, branches[0].target, sc, fuel).0; rt.Ok? && !Eq(cond, rt.value)
    ensures var st1 := Eval(h, st, branches[0].target, sc, fuel).1;
            (forall j :: 0 <= j < k ==> Misses(h, st, cond, branches, j, sc, fuel)) <==>
            (forall j :: 0 <= j < k - 1 ==> Misses(h, st1, cond, branches[1..], j, sc, fuel))
  {
    var st1 := Eval(h, st, branches[0].target, sc, fuel).1;
    TargetAtZero(h, st, cond, branches, sc, fuel);
    forall j | 1 <= j < k
      ensures Misses(h, st, cond, branches, j, sc, fuel) == Misses(h, st1, cond, branches[1..], j - 1, sc, fuel)
    {
      ShiftTarget(h, st, cond, branches, j, sc, fuel);
    }
    if forall j :: 0 <= j < k - 1 ==> Misses(h, st1, cond, branches[1..], j, sc, fuel) {
      forall j | 0 <= j < k ensures Misses(h, st, cond, branches, j, sc, fuel) {
        if j > 0 {
          assert Misses(h, st1, cond, branches[1..], j - 1, sc, fuel);
        }
      }
    }
    if forall j :: 0 <= j < k ==> Misses(h, st, cond, branches, j, sc, fuel) {
      forall j | 0 <= j < k - 1 ensures Misses(h, st1, cond, branches[1..], j, sc, fuel) {
        assert Misses(h, st, cond, branches, j + 1, sc, fuel);
      }
    }
  }

  /** No branch matches exactly when every target, in turn, evaluates and
      is not `Eq` to the subject. */
  lemma {:induction false} NoMatchIff(h: Host, st: State, cond: Value, branches: seq<IfBranch>, sc: ScopeId, fuel: nat)
    requires Linked(st.frames) && sc < |st.frames|
    ensures FirstMatch(h, st, cond, branches, sc, fuel).0 == Ok(None) <==>
            forall k :: 0 <= k < |branches| ==> Misses(h, st, cond, branches, k, sc, fuel)
    decreases |branches|
  {
    if branches != [] {
      TargetAtZero(h, st, cond, branches, sc, fuel);
      var (rt, st1) := Eval(h, st, branches[0].target, sc, fuel);
      if rt.Ok? && !Eq(cond, rt.value) {
        NoMatchIff(h, st1, cond, branches[1..], sc, fuel);
        MissesShifted(h, st, cond, branches, |branches|, sc, fuel);
      } else {
        assert !Misses(h, st, cond, branches, 0, sc, fuel);
      }
    }
  }

  /** When the scan finds branch `k`, every target before it missed and the
      target of branch `k` matched; the scan ends in the state that target
      left. */
  lemma {:induction false} FoundIsFirstHit(h: Host, st: State, cond: Value, branches: seq<IfBranch>, k: nat,
                                           sc: ScopeId, fuel: nat)
    requires Linked(st.frames) && sc < |st.frames|
    requires FirstMatch(h, st, cond, branches, sc, fuel).0 == Ok(Some(k))
    ensures k < |branches|
    ensures forall j :: 0 <= j < k ==> Misses(h, st, cond, branches, j, sc, fuel)
    ensures Hits(h, st, cond, branches, k, sc, fuel)
    ensures FirstMatch(h, st, cond, branches, sc, fuel).1 == TargetAt(h, st, cond, branches, k, sc, fuel).1
    decreases |branches|
  {
    TargetAtZero(h, st, cond, branches, sc, fuel);
    var (rt, st1) := Eval(h, st, branches[0].target, sc, fuel);
    if rt.Ok? && !Eq(cond, rt.value) {
      FirstMatchStep(h, st, cond, branches, sc, fuel);
      FoundIsFirstHit(h, st1, cond, branches[1..], k - 1, sc, fuel);
      MissesShifted(h, st, cond, branches, k, sc, fuel);
      ShiftTarget(h, st, cond, branches, k, sc, fuel);
    }
  }

  /** A find in the rest, past a first branch that misses, is a find one
      place further on. */
  lemma FoundPastMiss(h: Host, st: State, cond: Value, branches: seq<IfBranch>, k: nat, sc: ScopeId, fuel: nat)
    requires Linked(st.frames) && sc < |st.frames| && 1 <= k < |branches|
    requires Misses(h, st, cond, branches, 0, sc, fuel)
    requires var st1 := Eval(h, st, branches[0].target, sc, fuel).1;
             FirstMatch(h, st1, cond, branches[1..], sc, fuel).0 == Ok(Some(k - 1))
    ensures FirstMatch(h, st, cond, branches, sc, fuel).0 == Ok(Some(k))
  {
    TargetAtZero(h, st, cond, branches, sc, fuel);
    FirstMatchStep(h, st, cond, branches, sc, fuel);
  }

  /** When every target before branch `k` misses and its own matches, the
      scan finds branch `k`. */
  lemma {:induction false} FirstHitIsFound(h: Host, st: State, cond: Value, branches: seq<IfBranch>, k: nat,
                                           sc: ScopeId, fuel: nat)
    requires Linked(st.frames) && sc < |st.frames| && k < |branches|
    requires forall j :: 0 <= j < k ==> Misses(h, st, cond, branches, j, sc, fuel)
    requires Hits(h, st, cond, branches, k, sc, fuel)
    ensures FirstMatch(h, st, cond, branches, sc, fuel).0 == Ok(Some(k))
    decreases |branches|
  {
    TargetAtZero(h, st, cond, branches, sc, fuel);
    var st1 := Eval(h, st, branches[0].target, sc, fuel).1;
    if k > 0 {
      assert Misses(h, st, cond, branches, 0, sc, fuel);
      MissesShifted(h, st, cond, branches, k, sc, fuel);
      ShiftTarget(h, st, cond, branches, k, sc, fuel);
      FirstHitIsFound(h, st1, cond, branches[1..], k - 1, sc, fuel);
      FoundPastMiss(h, st, cond, branches, k, sc, fuel);
    }
  }

  /** The scan finds branch `k` exactly when every target before it misses
      and the target of branch `k` matches. */
  lemma FirstMatchIff(h: Host, st: State, cond: Value, branches: seq<IfBranch>, k: nat, sc: ScopeId, fuel: nat)
    requires Linked(st.frames) && sc < |st.frames|
    ensures FirstMatch(h, st, cond, branches, sc, fuel).0 == Ok(Some(k)) <==>
            && k < |branches|
            && (forall j :: 0 <= j < k ==> Misses(h, st, cond, branches, j, sc, fuel))
            && Hits(h, st, cond, branches, k, sc, fuel)
  {
    if FirstMatch(h, st, cond, branches, sc, fuel).0 == Ok(Some(k)) {
      FoundIsFirstHit(h, st, cond, branches, k, sc, fuel);
    } else if k < |branches| && (forall j :: 0 <= j < k ==> Misses(h, st, cond, branches, j, sc, fuel)) {
      if Hits(h, st, cond, branches, k, sc, fuel) {
        FirstHitIsFound(h, st, cond, branches, k, sc, fuel);
      }
    }
  }

  /** Once the scan of some branches has decided (a match or an error),
      appending more branches changes nothing: they are never looked at. */
  lemma {:induction false} FirstMatchDecided(h: Host, st: State, cond: Value, branches: seq<IfBranch>,
                                             more: seq<IfBranch>, sc: ScopeId, fuel: nat)
    requires Linked(st.frames) && sc < |st.frames|
    requires FirstMatch(h, st, cond, branches, sc, fuel).0 != Ok(None)
    ensures FirstMatch(h, st, cond, branches + more, sc, fuel) == FirstMatch(h, st, cond, branches, sc, fuel)
    decreases |branches|
  {
    var all := branches + more;
    assert all[0] == branches[0];
    assert all[1..] == branches[1..] + more;
    var t := Eval(h, st, branches[0].target, sc, fuel);
    if t.0.Ok? && !Eq(cond, t.0.value) {
      FirstMatchStep(h, st, cond, branches, sc, fuel);
      FirstMatchDecided(h, t.1, cond, branches[1..], more, sc, fuel);
      FirstMatchStep(h, st, cond, all, sc, fuel);
    }
  }

  /** First match wins: when some branch of `branches` matches (or a target
      fails), the branches after them are neither evaluated nor able to
      change the result. */
  lemma LaterBranchesIgnored(h: Host, st: State, cond: Value, branches: seq<IfBranch>, more: seq<IfBranch>,
                             sc: ScopeId, fuel: nat)
    requires Linked(st.frames) && sc < |st.frames|
    requires FirstMatch(h, st, cond, branches, sc, fuel).0 != Ok(None)
    ensures EvalBranches(h, st, cond, branches + more, sc, fuel) == EvalBranches(h, st, cond, branches, sc, fuel)
  {
    BranchesByFirstMatch(h, st, cond, branches, sc, fuel);
    BranchesByFirstMatch(h, st, cond, branches + more, sc, fuel);
    FirstMatchDecided(h, st, cond, branches, more, sc, fuel);
    var rk := FirstMatch(h, st, cond, branches, sc, fuel).0;
    if rk.Ok? {
      assert (branches + more)[rk.value.value] == branches[rk.value.value];
    }
  }

  /** When every target, in turn, evaluates and misses, the `if` is `Null`. */
  lemma NoMatchIsNull(h: Host, st: State, cond: Value, branches: seq<IfBranch>, sc: ScopeId, fuel: nat)
    requires Linked(st.frames) && sc < |st.frames|
    requires forall k :: 0 <= k < |branches| ==> Misses(h, st, cond, branches, k, sc, fuel)
    ensures EvalBranches(h, st, cond, branches, sc, fuel).0 == Ok(Null)
  {
    NoMatchIff(h, st, cond, branches, sc, fuel);
    BranchesByFirstMatch(h, st, cond, branches, sc, fuel);
  }

  /** `if 2 { 1 -> :one, 2 -> :two, 2 -> :again }` is `:two`. */
  lemma IfFirstMatchExample(h: Host, st: State, sc: ScopeId, fuel: nat)
    requires Linked(st.frames) && sc < |st.frames| && fuel >= 2
    ensures var one, two := NumberNode(true, 1, 0), NumberNode(true, 2, 0);
            Eval(h, st, IfExprNode(two, [IfBranch(one, AtomNode("one")), IfBranch(two, AtomNode("two")),
                                        IfBranch(two, AtomNode("again"))]), sc, fuel)
            == (Ok(Atom("two")), st)
  {
    var one, two := NumberNode(true, 1, 0), NumberNode(true, 2, 0);
    var f := fuel - 1;
    var bs := [IfBranch(one, AtomNode("one")), IfBranch(two, AtomNode("two")), IfBranch(two, AtomNode("again"))];
    EvalLiteral(h, st, two, sc, f);
    EvalLiteral(h, st, one, sc, f);
    EvalLiteral(h, st, AtomNode("two"), sc, f);
    assert !Eq(Int(2), Int(1)) && Eq(Int(2), Int(2));
    assert EvalBranches(h, st, Int(2), bs[1..], sc, f) == (Ok(Atom("two")), st);
    assert EvalBranches(h, st, Int(2), bs, sc, f) == (Ok(Atom("two")), st);
    assert IfExpr(h, st, two, bs, sc, f) == (Ok(Atom("two")), st);
  }

  /** `_` as a target matches any subject that is not a function:
      `if 3 { 1 -> :one, _ -> :other }` is `:other`. */
  lemma IfWildcardExample(h: Host, st: State, sc: ScopeId, fuel: nat)
    requires Linked(st.frames) && sc < |st.frames| && fuel >= 2
    ensures var one, three := NumberNode(true, 1, 0), NumberNode(true, 3, 0);
            Eval(h, st, IfExprNode(three, [IfBranch(one, AtomNode("one")), IfBranch(EmptyNode, AtomNode("other"))]),
                 sc, fuel)
            == (Ok(Atom("other")), st)
  {
    var one, three := NumberNode(true, 1, 0), NumberNode(true, 3, 0);
    var f := fuel - 1;
    var cs := [IfBranch(one, AtomNode("one")), IfBranch(EmptyNode, AtomNode("other"))];
    EvalLiteral(h, st, three, sc, f);
    EvalLiteral(h, st, one, sc, f);
    EvalLiteral(h, st, EmptyNode, sc, f);
    EvalLiteral(h, st, AtomNode("other"), sc, f);
    assert !Eq(Int(3), Int(1)) && Eq(Int(3), Empty);
    assert EvalBranches(h, st, Int(3), cs[1..], sc, f) == (Ok(Atom("other")), st);
    assert EvalBranches(h, st, Int(3), cs, sc, f) == (Ok(Atom("other")), st);
    assert IfExpr(h, st, three, cs, sc, f) == (Ok(Atom("other")), st);
  }
}
