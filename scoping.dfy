/** Properties of scopes as evaluation uses them: blocks open a scope of
    their own, `:=` binds in the current scope while `<-` rebinds where the
    name lives, a named function literal binds itself, and a closure reads
    its defining scope as it is when the closure is called. */
module Scoping {
  import opened Errors
  import opened Ast
  import opened Values
  import opened Scopes
  import opened Evaluation
  import opened EvalProperties

  /** The scope a block opens under `sc`. */
  function BlockScope(sc: ScopeId): (r: Frame)
  {
    Frame(map[], Some(sc))
  }

  /** A block of one expression is that expression evaluated in a new
      scope, the youngest of the store, whose parent is the current one. */
  lemma BlockOfOne(h: Host, st: State, n: Node, sc: ScopeId, fuel: nat)
    requires Linked(st.frames) && sc < |st.frames| && fuel > 0
    ensures Linked(st.frames + [BlockScope(sc)])
    ensures Eval(h, st, BlockNode([n]), sc, fuel)
            == Eval(h, st.(frames := st.frames + [BlockScope(sc)]), n, |st.frames|, fuel - 1)
  {
    var st1 := st.(frames := st.frames + [BlockScope(sc)]);
    var n0 := |st.frames|;
    var ns := [n];
    assert ns[..|ns| - 1] == [] && ns[|ns| - 1] == n;
    assert EvalSeq(h, st1, ns[..|ns| - 1], n0, fuel - 1) == (Ok([]), st1);
    var r := Eval(h, st1, n, n0, fuel - 1);
    if r.0.Ok? {
      assert [] + [r.0.value] == [r.0.value];
    }
    assert EvalSeq(h, st1, ns, n0, fuel - 1) == (if r.0.Err? then Err(r.0.error) else Ok([r.0.value]), r.1);
    assert Step(h, st, BlockNode([n]), sc, fuel - 1) == Block(h, st, [n], sc, fuel - 1);
  }

  /** An empty block is `Null`; it still opens its scope. */
  lemma EmptyBlockIsNull(h: Host, st: State, sc: ScopeId, fuel: nat)
    requires Linked(st.frames) && sc < |st.frames| && fuel > 0
    ensures Eval(h, st, BlockNode([]), sc, fuel) == (Ok(Null), st.(frames := st.frames + [BlockScope(sc)]))
  {
    var st1 := st.(frames := st.frames + [BlockScope(sc)]);
    assert EvalSeq(h, st1, [], |st.frames|, fuel - 1) == (Ok([]), st1);
    assert Block(h, st, [], sc, fuel - 1) == (Ok(Null), st1);
    assert Step(h, st, BlockNode([]), sc, fuel - 1) == Block(h, st, [], sc, fuel - 1);
  }

  /** A block is the value of its last expression, evaluated in the block's
      scope after all the others; an error among the others is the block's
      error, and the last expression is then never evaluated. */
  lemma BlockIsLast(h: Host, st: State, exprs: seq<Node>, sc: ScopeId, fuel: nat)
    requires Linked(st.frames) && sc < |st.frames| && fuel > 0 && exprs != []
    ensures Linked(st.frames + [BlockScope(sc)])
    ensures var st1 := st.(frames := st.frames + [BlockScope(sc)]);
            var (rs, st2) := EvalSeq(h, st1, exprs[..|exprs| - 1], |st.frames|, fuel - 1);
            && (rs.Ok? ==> Eval(h, st, BlockNode(exprs), sc, fuel)
                           == Eval(h, st2, exprs[|exprs| - 1], |st.frames|, fuel - 1))
            && (rs.Err? ==> Eval(h, st, BlockNode(exprs), sc, fuel) == (Err(rs.error), st2))
  {
    var st1 := st.(frames := st.frames + [BlockScope(sc)]);
    var n := |st.frames|;
    var (rs, st2) := EvalSeq(h, st1, exprs[..|exprs| - 1], n, fuel - 1);
    var r := Eval(h, st2, exprs[|exprs| - 1], n, fuel - 1);
    var all := EvalSeq(h, st1, exprs, n, fuel - 1);
    if rs.Ok? {
      if r.0.Ok? {
        assert all == (Ok(rs.value + [r.0.value]), r.1);
        assert LastOr(all.0.value, Null) == r.0.value;
      } else {
        assert all == (Err(r.0.error), r.1);
      }
    } else {
      assert all == (Err(rs.error), st2);
    }
    assert Step(h, st, BlockNode(exprs), sc, fuel - 1) == Block(h, st, exprs, sc, fuel - 1);
  }

  /** Assigning a literal to a name is binding its value. */
  lemma AssignLiteral(h: Host, st: State, isLocal: bool, x: string, e: Node, sc: ScopeId, fuel: nat)
    requires Linked(st.frames) && sc < |st.frames| && Literal(e) && fuel >= 2
    ensures Eval(h, st, AssignmentNode(isLocal, IdentifierNode(x), e), sc, fuel)
            == BindName(st, x, isLocal, LiteralValue(e), sc)
  {
    EvalLiteral(h, st, e, sc, fuel - 1);
    assert Step(h, st, AssignmentNode(isLocal, IdentifierNode(x), e), sc, fuel - 1)
           == Assignment(h, st, isLocal, IdentifierNode(x), e, sc, fuel - 1);
  }

  /** `{ x := e }` binds `x` in the block's own scope and nowhere else: the
      scopes that existed before are exactly as they were. */
  lemma LocalAssignStaysInBlock(h: Host, st: State, x: string, e: Node, sc: ScopeId, fuel: nat)
    requires Linked(st.frames) && sc < |st.frames| && Literal(e) && fuel >= 3
    ensures var out := Eval(h, st, BlockNode([AssignmentNode(true, IdentifierNode(x), e)]), sc, fuel);
            && out.0 == Ok(LiteralValue(e))
            && |out.1.frames| == |st.frames| + 1
            && out.1.frames[..|st.frames|] == st.frames
            && out.1.frames[|st.frames|] == Frame(map[x := LiteralValue(e)], Some(sc))
  {
    var fs1 := st.frames + [BlockScope(sc)];
    BlockOfOne(h, st, AssignmentNode(true, IdentifierNode(x), e), sc, fuel);
    AssignLiteral(h, st.(frames := fs1), true, x, e, |st.frames|, fuel - 1);
    assert fs1[..|st.frames|] == st.frames;
  }

  /** After `{ x := e }` no scope that existed before sees a change, not even
      the scope of the block itself. */
  lemma LocalAssignInvisibleOutside(h: Host, st: State, x: string, e: Node, sc: ScopeId, fuel: nat,
                                    s: ScopeId, y: string)
    requires Linked(st.frames) && sc < |st.frames| && Literal(e) && fuel >= 3 && s < |st.frames|
    ensures var out := Eval(h, st, BlockNode([AssignmentNode(true, IdentifierNode(x), e)]), sc, fuel);
            Get(out.1.frames, s, y) == Get(st.frames, s, y)
  {
    LocalAssignStaysInBlock(h, st, x, e, sc, fuel);
    var out := Eval(h, st, BlockNode([AssignmentNode(true, IdentifierNode(x), e)]), sc, fuel);
    var f := out.1.frames[|st.frames|];
    assert out.1.frames == st.frames + [f];
    GetAfterAppend(st.frames, f, s, y);
  }

  /** `{ x <- e }` for a name defined outside the block rebinds it there:
      the scopes that existed before are updated exactly as `update` from
      the current scope updates them, and the block's scope stays empty. */
  lemma NonlocalAssignReachesOuter(h: Host, st: State, x: string, e: Node, sc: ScopeId, fuel: nat)
    requires Linked(st.frames) && sc < |st.frames| && Literal(e) && fuel >= 3
    requires Get(st.frames, sc, x).Ok?
    ensures Update(st.frames, sc, x, LiteralValue(e)).Ok?
    ensures var out := Eval(h, st, BlockNode([AssignmentNode(false, IdentifierNode(x), e)]), sc, fuel);
            && out.0 == Ok(LiteralValue(e))
            && out.1.frames == Update(st.frames, sc, x, LiteralValue(e)).value + [BlockScope(sc)]
            && Get(out.1.frames, sc, x) == Ok(LiteralValue(e))
  {
    var v := LiteralValue(e);
    var fs1 := st.frames + [BlockScope(sc)];
    BlockOfOne(h, st, AssignmentNode(false, IdentifierNode(x), e), sc, fuel);
    AssignLiteral(h, st.(frames := fs1), false, x, e, |st.frames|, fuel - 1);
    UpdateNeverCreates(st.frames, sc, x, v);
    UpdateAfterAppend(st.frames, BlockScope(sc), sc, x, v);
    assert fs1[|st.frames|] == BlockScope(sc);
    assert Update(fs1, |st.frames|, x, v) == Update(fs1, sc, x, v);
    GetAfterUpdate(st.frames, sc, x, v);
    GetAfterAppend(Update(st.frames, sc, x, v).value, BlockScope(sc), sc, x);
  }

  /** `{ x <- e }` for a name no scope of the chain defines fails with
      `x` undefined, and changes no existing scope. */
  lemma NonlocalAssignUndefined(h: Host, st: State, x: string, e: Node, sc: ScopeId, fuel: nat)
    requires Linked(st.frames) && sc < |st.frames| && Literal(e) && fuel >= 3
    requires Get(st.frames, sc, x).Err?
    ensures var out := Eval(h, st, BlockNode([AssignmentNode(false, IdentifierNode(x), e)]), sc, fuel);
            && out.0 == Err(Undefined(x))
            && out.1.frames == st.frames + [BlockScope(sc)]
  {
    var v := LiteralValue(e);
    var fs1 := st.frames + [BlockScope(sc)];
    BlockOfOne(h, st, AssignmentNode(false, IdentifierNode(x), e), sc, fuel);
    AssignLiteral(h, st.(frames := fs1), false, x, e, |st.frames|, fuel - 1);
    UpdateNeverCreates(st.frames, sc, x, v);
    UpdateNearest(st.frames, sc, x, v);
    UpdateAfterAppend(st.frames, BlockScope(sc), sc, x, v);
    assert fs1[|st.frames|] == BlockScope(sc);
    assert Update(fs1, |st.frames|, x, v) == Update(fs1, sc, x, v);
  }

  // ------------------------------------------------------------ functions

  /** A named function literal is bound under its name in the current scope,
      so its body can call it; its definition gets the next identity. */
  lemma FnLiteralBindsName(h: Host, st: State, name: string, args: seq<string>, body: Node, sc: ScopeId, fuel: nat)
    requires Linked(st.frames) && sc < |st.frames| && fuel > 0
    ensures var out := Eval(h, st, FnNode(name, args, body), sc, fuel);
            && out.0 == Ok(Fn(FnDefn(st.nextFn, name, args, body), sc))
            && out.1.nextFn == st.nextFn + 1
            && (name != "" ==> out.1.frames == Put(st.frames, sc, name, out.0.value))
            && (name != "" ==> Get(out.1.frames, sc, name) == out.0)
            && (name == "" ==> out.1.frames == st.frames)
  {
  }

  /** Evaluating the same function literal twice gives two functions that
      are not equal, while each is equal to itself. */
  lemma FnLiteralsDistinct(h: Host, st: State, name: string, args: seq<string>, body: Node, sc: ScopeId, fuel: nat)
    requires Linked(st.frames) && sc < |st.frames| && fuel > 0
    ensures var a := Eval(h, st, FnNode(name, args, body), sc, fuel);
            var b := Eval(h, a.1, FnNode(name, args, body), sc, fuel);
            && a.0.Ok? && b.0.Ok?
            && Eq(a.0.value, a.0.value) && !Eq(a.0.value, b.0.value)
  {
    FnLiteralBindsName(h, st, name, args, body, sc, fuel);
    var a := Eval(h, st, FnNode(name, args, body), sc, fuel);
    FnLiteralBindsName(h, a.1, name, args, body, sc, fuel);
  }

  /** Binding only looks at as many arguments as there are parameters. */
  lemma {:induction false} BindParamsPrefix(params: seq<string>, args: seq<Value>, extra: seq<Value>)
    requires |params| <= |args|
    ensures BindParams(params, args + extra) == BindParams(params, args)
  {
    if params != [] {
      BindParamsPrefix(params[..|params| - 1], args, extra);
      assert (args + extra)[|params| - 1] == args[|params| - 1];
    }
  }

  /** Arguments beyond the declared parameters are dropped. */
  lemma ExtraArgsIgnored(h: Host, st: State, d: FnDefn, s: ScopeId, args: seq<Value>, extra: seq<Value>, fuel: nat)
    requires Linked(st.frames) && |d.args| <= |args|
    ensures Apply(h, st, Fn(d, s), args + extra, fuel) == Apply(h, st, Fn(d, s), args, fuel)
  {
    BindParamsPrefix(d.args, args, extra);
  }

  /** A call with fewer arguments than parameters faults. */
  lemma TooFewArgs(h: Host, st: State, d: FnDefn, s: ScopeId, args: seq<Value>, fuel: nat)
    requires Linked(st.frames) && |args| < |d.args|
    ensures Apply(h, st, Fn(d, s), args, fuel).0.Err?
    ensures Apply(h, st, Fn(d, s), args, fuel).0.error.InternalFault?
  {
  }

  /** The store of a call: the caller's, with one new scope binding the
      parameters under the closure's scope. */
  function CallStore(st: State, d: FnDefn, s: ScopeId, args: seq<Value>): (fs: seq<Frame>)
    requires Linked(st.frames) && s < |st.frames| && |d.args| <= |args|
    ensures Linked(fs) && |fs| == |st.frames| + 1 && fs[..|st.frames|] == st.frames
    ensures fs[|st.frames|].parent == Some(s) && fs[|st.frames|].vars.Keys == set p | p in d.args
  {
    st.frames + [Frame(BindParams(d.args, args), Some(s))]
  }

  /** A call runs the body in that store, from the new scope. */
  lemma CallRunsBody(h: Host, st: State, d: FnDefn, s: ScopeId, args: seq<Value>, fuel: nat)
    requires Linked(st.frames) && s < |st.frames| && |d.args| <= |args|
    ensures Apply(h, st, Fn(d, s), args, fuel)
            == Eval(h, st.(frames := CallStore(st, d, s, args)), d.body, |st.frames|, fuel)
  {
  }

  /** A parameter name in the body of a function is the argument at that
      parameter's position (the last position, for a repeated name). */
  lemma CallBindsParam(h: Host, st: State, d: FnDefn, s: ScopeId, args: seq<Value>, i: nat, fuel: nat)
    requires Linked(st.frames) && s < |st.frames| && |d.args| <= |args| && fuel > 0
    requires i < |d.args| && d.args[i] !in d.args[i + 1..] && d.body == IdentifierNode(d.args[i])
    ensures Apply(h, st, Fn(d, s), args, fuel).0 == Ok(args[i])
  {
    var fs := CallStore(st, d, s, args);
    CallRunsBody(h, st, d, s, args, fuel);
    assert Eval(h, st.(frames := fs), d.body, |st.frames|, fuel).0 == Get(fs, |st.frames|, d.args[i]);
  }

  /** Any other name in the body of a function is looked up from the
      closure's scope in the store as it is at the call, not as it was when
      the function literal was evaluated. */
  lemma ClosureSeesCurrentBinding(h: Host, st: State, d: FnDefn, s: ScopeId, args: seq<Value>, x: string, fuel: nat)
    requires Linked(st.frames) && s < |st.frames| && |d.args| <= |args| && fuel > 0
    requires d.body == IdentifierNode(x) && x !in d.args
    ensures Apply(h, st, Fn(d, s), args, fuel).0 == Get(st.frames, s, x)
  {
    var fs := CallStore(st, d, s, args);
    CallRunsBody(h, st, d, s, args, fuel);
    assert Eval(h, st.(frames := fs), d.body, |st.frames|, fuel).0 == Get(fs, |st.frames|, x);
    assert fs == st.frames + [fs[|st.frames|]];
    GetAfterAppend(st.frames, fs[|st.frames|], s, x);
  }

  /** So a binding made in the closure's scope after the closure was
      created is what the call sees. */
  lemma ClosureSeesLaterPut(h: Host, st: State, d: FnDefn, s: ScopeId, args: seq<Value>, x: string, w: Value,
                            fuel: nat)
    requires Linked(st.frames) && s < |st.frames| && |d.args| <= |args| && fuel > 0
    requires d.body == IdentifierNode(x) && x !in d.args
    ensures Apply(h, st.(frames := Put(st.frames, s, x, w)), Fn(d, s), args, fuel).0 == Ok(w)
  {
    ClosureSeesCurrentBinding(h, st.(frames := Put(st.frames, s, x, w)), d, s, args, x, fuel);
    GetAfterPut(st.frames, s, x, w);
  }
}
