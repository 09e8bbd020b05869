/** The interpreter as the source runs it: a `Context` owning the store of
    scopes (its scope 0 is the global scope), whose methods update that
    store in place. Each method is proved to do exactly what the functions
    of module Evaluation say. */
module Interpreter {
  import opened Errors
  import opened Ast
  import opened Values
  import opened Scopes
  import opened Evaluation
  import opened EvalProperties

  class Context {
    var frames: seq<Frame>
    var nextFn: nat

    ghost predicate Valid()
      reads this
    {
      Linked(frames) && |frames| > 0 && frames[0].parent.None?
    }

    function Snapshot(): (r: State)
      reads this
    {
      State(frames, nextFn)
    }

    /** `NewContext`: an empty global scope without a parent. */
    constructor ()
      ensures Valid()
      ensures frames == [Frame(map[], None)] && nextFn == 0
    {
      frames := [Frame(map[], None)];
      nextFn := 0;
    }

    /** `scope.put`. */
    method Put(sc: ScopeId, name: string, v: Value)
      requires Valid() && sc < |frames|
      modifies this
      ensures Valid()
      ensures frames == Scopes.Put(old(frames), sc, name, v) && nextFn == old(nextFn)
    {
      frames := frames[sc := frames[sc].(vars := frames[sc].vars[name := v])];
    }

    /** `scope.update`: `None` for success, the error otherwise. */
    method Update(sc: ScopeId, name: string, v: Value) returns (err: Option<Error>)
      requires Valid() && sc < |frames|
      modifies this
      ensures Valid() && nextFn == old(nextFn)
      ensures match Scopes.Update(old(frames), sc, name, v)
              case Ok(fs) => err == None && frames == fs
              case Err(e) => err == Some(e) && frames == old(frames)
      decreases sc
    {
      if name in frames[sc].vars {
        Put(sc, name, v);
        return None;
      }
      match frames[sc].parent
      case Some(p) =>
        err := Update(p, name, v);
      case None =>
        err := Some(Undefined(name));
    }

    /** `evalProgram`: the top-level nodes as a block in the global scope. */
    method EvalProgram(h: Host, nodes: seq<Node>, fuel: nat) returns (r: Result<Value>)
      requires Valid()
      modifies this
      ensures Valid()
      ensures (r, Snapshot()) == Eval(h, old(Snapshot()), BlockNode(nodes), 0, fuel)
    {
      r := EvalExpr(h, BlockNode(nodes), 0, fuel);
    }

    /** `evalExpr`. */
    method EvalExpr(h: Host, node: Node, sc: ScopeId, fuel: nat) returns (r: Result<Value>)
      requires Valid() && sc < |frames|
      modifies this
      ensures Valid()
      ensures (r, Snapshot()) == Eval(h, old(Snapshot()), node, sc, fuel)
      decreases fuel, 0, 0
    {
      if fuel == 0 {
        return Err(OutOfFuel);
      }
      if Compound(node) {
        r := EvalCompound(h, node, sc, fuel - 1);
      } else {
        r := EvalSimple(h, node, sc, fuel - 1);
      }
    }

    /** The nodes of `evalExpr` that evaluate no sub-expression. */
    method EvalSimple(h: Host, node: Node, sc: ScopeId, fuel: nat) returns (r: Result<Value>)
      requires Valid() && sc < |frames| && !Compound(node)
      modifies this
      ensures Valid()
      ensures (r, Snapshot()) == Step(h, old(Snapshot()), node, sc, fuel)
    {
      match node
      case EmptyNode => r := Ok(Empty);
      case NullNode => r := Ok(Null);
      case StringNode(s) => r := Ok(Str(s));
      case NumberNode(isInteger, i, x) => r := Ok(if isInteger then Int(i) else Float(x));
      case BooleanNode(b) => r := Ok(Bool(b));
      case AtomNode(a) => r := Ok(Atom(a));
      case FnNode(name, args, body) => r := EvalFnLiteral(name, args, body, sc);
      case IdentifierNode(x) => r := Get(frames, sc, x);
      case UnaryNode(_, _) => r := Err(InternalFault("unaryNode not implemented!"));
      case BinaryNode(_, _, _) => r := Err(InternalFault("binaryNode not implemented!"));
    }

    /** The nodes of `evalExpr` that evaluate sub-expressions. */
    method EvalCompound(h: Host, node: Node, sc: ScopeId, fuel: nat) returns (r: Result<Value>)
      requires Valid() && sc < |frames| && Compound(node)
      modifies this
      ensures Valid()
      ensures (r, Snapshot()) == Step(h, old(Snapshot()), node, sc, fuel)
      decreases fuel, 3, 0
    {
      ghost var st0 := Snapshot();
      match node
      case ListNode(elems) =>
        assert Step(h, st0, node, sc, fuel) == ListLiteral(h, st0, elems, sc, fuel);
        r := EvalList(h, elems, sc, fuel);
      case ObjectNode(entries) =>
        assert Step(h, st0, node, sc, fuel) == ObjectLiteral(h, st0, entries, sc, fuel);
        r := EvalObject(h, entries, sc, fuel);
      case AssignmentNode(isLocal, left, right) =>
        assert Step(h, st0, node, sc, fuel) == Assignment(h, st0, isLocal, left, right, sc, fuel);
        r := EvalAssignment(h, isLocal, left, right, sc, fuel);
      case PropertyAccessNode(left, right) =>
        assert Step(h, st0, node, sc, fuel) == PropertyAccess(h, st0, left, right, sc, fuel);
        r := EvalPropertyAccess(h, left, right, sc, fuel);
      case FnCallNode(callee, args) =>
        assert Step(h, st0, node, sc, fuel) == FnCall(h, st0, callee, args, sc, fuel);
        r := EvalCall(h, callee, args, sc, fuel);
      case IfExprNode(cond, branches) =>
        assert Step(h, st0, node, sc, fuel) == IfExpr(h, st0, cond, branches, sc, fuel);
        r := EvalIf(h, cond, branches, sc, fuel);
      case BlockNode(exprs) =>
        assert Step(h, st0, node, sc, fuel) == Block(h, st0, exprs, sc, fuel);
        r := EvalBlock(h, exprs, sc, fuel);
    }

    /** A function literal: a closure with a definition of its own, put
        into the current scope under its name when it has one. */
    method EvalFnLiteral(name: string, args: seq<string>, body: Node, sc: ScopeId) returns (r: Result<Value>)
      requires Valid() && sc < |frames|
      modifies this
      ensures Valid()
      ensures (r, Snapshot()) == FnLiteral(old(Snapshot()), name, args, body, sc)
    {
      var fn := Fn(FnDefn(nextFn, name, args, body), sc);
      nextFn := nextFn + 1;
      if name != "" {
        Put(sc, name, fn);
      }
      r := Ok(fn);
    }

    /** The loop that fills the elements of a list literal, and the arguments
        of a call, left to right, returning at the first error. */
    method EvalExprs(h: Host, nodes: seq<Node>, sc: ScopeId, fuel: nat) returns (r: Result<seq<Value>>)
      requires Valid() && sc < |frames|
      modifies this
      ensures Valid()
      ensures (r, Snapshot()) == EvalSeq(h, old(Snapshot()), nodes, sc, fuel)
      decreases fuel, 1, 0
    {
      ghost var st0 := Snapshot();
      var elems: seq<Value> := [];
      var i := 0;
      while i < |nodes|
        invariant 0 <= i <= |nodes|
        invariant Valid() && sc < |frames|
        invariant EvalSeq(h, st0, nodes[..i], sc, fuel) == (Ok(elems), Snapshot())
      {
        var v := EvalExpr(h, nodes[i], sc, fuel);
        assert nodes[..i + 1][..i] == nodes[..i];
        if v.Err? {
          EvalSeqStops(h, st0, nodes[..i + 1], nodes[i + 1..], sc, fuel);
          assert nodes[..i + 1] + nodes[i + 1..] == nodes;
          return Err(v.error);
        }
        elems := elems + [v.value];
        i := i + 1;
      }
      assert nodes[..i] == nodes;
      r := Ok(elems);
    }

    /** A list literal. */
    method EvalList(h: Host, elems: seq<Node>, sc: ScopeId, fuel: nat) returns (r: Result<Value>)
      requires Valid() && sc < |frames|
      modifies this
      ensures Valid()
      ensures (r, Snapshot()) == ListLiteral(h, old(Snapshot()), elems, sc, fuel)
      decreases fuel, 2, 0
    {
      var vals := EvalExprs(h, elems, sc, fuel);
      if vals.Err? {
        return Err(vals.error);
      }
      r := Ok(List(vals.value));
    }

    /** An object literal: for each entry its key, then its value. */
    method EvalObject(h: Host, entries: seq<ObjectEntry>, sc: ScopeId, fuel: nat) returns (r: Result<Value>)
      requires Valid() && sc < |frames|
      modifies this
      ensures Valid()
      ensures (r, Snapshot()) == ObjectLiteral(h, old(Snapshot()), entries, sc, fuel)
      decreases fuel, 2, 0
    {
      var obj := EvalEntryList(h, entries, sc, fuel);
      if obj.Err? {
        return Err(obj.error);
      }
      r := Ok(Object(obj.value));
    }

    /** The loop of an object literal. */
    method EvalEntryList(h: Host, entries: seq<ObjectEntry>, sc: ScopeId, fuel: nat)
      returns (r: Result<map<string, Value>>)
      requires Valid() && sc < |frames|
      modifies this
      ensures Valid()
      ensures (r, Snapshot()) == EvalEntries(h, old(Snapshot()), entries, sc, fuel)
      decreases fuel, 1, 1
    {
      ghost var st0 := Snapshot();
      var obj: map<string, Value> := map[];
      var i := 0;
      while i < |entries|
        invariant 0 <= i <= |entries|
        invariant Valid() && sc < |frames|
        invariant EvalEntries(h, st0, entries[..i], sc, fuel) == (Ok(obj), Snapshot())
      {
        var entry := EvalEntryStep(h, entries[i], sc, fuel);
        assert entries[..i + 1][..i] == entries[..i];
        if entry.Err? {
          EvalEntriesStops(h, st0, entries[..i + 1], entries[i + 1..], sc, fuel);
          assert entries[..i + 1] + entries[i + 1..] == entries;
          return Err(entry.error);
        }
        obj := obj[entry.value.0 := entry.value.1];
        i := i + 1;
      }
      assert entries[..i] == entries;
      r := Ok(obj);
    }

    /** The body of the object literal loop for one entry. */
    method EvalEntryStep(h: Host, entry: ObjectEntry, sc: ScopeId, fuel: nat) returns (r: Result<(string, Value)>)
      requires Valid() && sc < |frames|
      modifies this
      ensures Valid()
      ensures (r, Snapshot()) == EvalEntry(h, old(Snapshot()), entry, sc, fuel)
      decreases fuel, 1, 0
    {
      var keyString: string;
      if entry.key.IdentifierNode? {
        keyString := entry.key.name;
      } else {
        var key := EvalExpr(h, entry.key, sc, fuel);
        if key.Err? {
          return Err(key.error);
        }
        var k := KeyString(h, key.value);
        if k.Err? {
          return Err(k.error);
        }
        keyString := k.value;
      }
      var val := EvalExpr(h, entry.val, sc, fuel);
      if val.Err? {
        return Err(val.error);
      }
      r := Ok((keyString, val.value));
    }

    /** An assignment: the right-hand side first, then the store. */
    method EvalAssignment(h: Host, isLocal: bool, left: Node, right: Node, sc: ScopeId, fuel: nat)
      returns (r: Result<Value>)
      requires Valid() && sc < |frames|
      modifies this
      ensures Valid()
      ensures (r, Snapshot()) == Assignment(h, old(Snapshot()), isLocal, left, right, sc, fuel)
      decreases fuel, 2, 0
    {
      var assignedValue := EvalExpr(h, right, sc, fuel);
      if assignedValue.Err? {
        return assignedValue;
      }
      r := AssignTarget(left, isLocal, assignedValue.value, sc);
    }

    /** Storing the evaluated right-hand side into the left-hand side: only a
        name can be assigned to; the other targets panic. */
    method AssignTarget(left: Node, isLocal: bool, v: Value, sc: ScopeId) returns (r: Result<Value>)
      requires Valid() && sc < |frames|
      modifies this
      ensures Valid()
      ensures (r, Snapshot()) == AssignTo(old(Snapshot()), left, isLocal, v, sc)
    {
      if left.IdentifierNode? {
        r := AssignName(left.name, isLocal, v, sc);
      } else {
        r := Err(InternalFault(AssignFault(left)));
      }
    }

    /** `:=` puts the name into the current scope; `<-` updates it where it
        is defined. */
    method AssignName(x: string, isLocal: bool, v: Value, sc: ScopeId) returns (r: Result<Value>)
      requires Valid() && sc < |frames|
      modifies this
      ensures Valid()
      ensures (r, Snapshot()) == BindName(old(Snapshot()), x, isLocal, v, sc)
    {
      if isLocal {
        Put(sc, x, v);
        r := Ok(v);
      } else {
        var err := Update(sc, x, v);
        r := if err.Some? then Err(err.value) else Ok(v);
      }
    }

    /** A property access: the base, then the key, then the lookup. */
    method EvalPropertyAccess(h: Host, left: Node, right: Node, sc: ScopeId, fuel: nat) returns (r: Result<Value>)
      requires Valid() && sc < |frames|
      modifies this
      ensures Valid()
      ensures (r, Snapshot()) == PropertyAccess(h, old(Snapshot()), left, right, sc, fuel)
      decreases fuel, 2, 0
    {
      var target := EvalExpr(h, left, sc, fuel);
      if target.Err? {
        return target;
      }
      r := EvalLookup(h, target.value, right, sc, fuel);
    }

    /** The key of a property access, then the lookup in the base. */
    method EvalLookup(h: Host, target: Value, right: Node, sc: ScopeId, fuel: nat) returns (r: Result<Value>)
      requires Valid() && sc < |frames|
      modifies this
      ensures Valid()
      ensures (r, Snapshot()) == LookupKey(h, old(Snapshot()), target, right, sc, fuel)
      decreases fuel, 1, 0
    {
      var key := EvalExpr(h, right, sc, fuel);
      if key.Err? {
        return key;
      }
      r := Index(h, target, key.value);
    }

    /** A call: the callee, then the arguments, then the application. */
    method EvalCall(h: Host, callee: Node, argNodes: seq<Node>, sc: ScopeId, fuel: nat) returns (r: Result<Value>)
      requires Valid() && sc < |frames|
      modifies this
      ensures Valid()
      ensures (r, Snapshot()) == FnCall(h, old(Snapshot()), callee, argNodes, sc, fuel)
      decreases fuel, 2, 0
    {
      var maybeFn := EvalExpr(h, callee, sc, fuel);
      if maybeFn.Err? {
        return maybeFn;
      }
      var args := EvalExprs(h, argNodes, sc, fuel);
      if args.Err? {
        return Err(args.error);
      }
      r := Call(h, maybeFn.value, args.value, fuel);
    }

    /** Applying an evaluated callee to evaluated arguments. */
    method Call(h: Host, callee: Value, args: seq<Value>, fuel: nat) returns (r: Result<Value>)
      requires Valid()
      modifies this
      ensures Valid()
      ensures (r, Snapshot()) == Apply(h, old(Snapshot()), callee, args, fuel)
      decreases fuel, 1, 1
    {
      if callee.Fn? {
        r := CallClosure(h, callee.defn, callee.scope, args, fuel);
      } else if callee.Builtin? {
        r := h.native(callee.fnName, args);
      } else {
        r := Err(RuntimeError(Display(callee, h.show) + " is not a function and cannot be called"));
      }
    }

    /** A closure's body runs in a new scope under the closure's own scope,
        with the parameters put there one by one. */
    method CallClosure(h: Host, d: FnDefn, s: ScopeId, args: seq<Value>, fuel: nat) returns (r: Result<Value>)
      requires Valid()
      modifies this
      ensures Valid()
      ensures (r, Snapshot()) == ApplyClosure(h, old(Snapshot()), d, s, args, fuel)
      decreases fuel, 1, 0
    {
      if |args| < |d.args| {
        return Err(InternalFault("slice bounds out of range"));
      }
      if s >= |frames| {
        return Err(InternalFault("closure scope is not in the store"));
      }
      var fnScope := |frames|;
      BindArgs(d.args, args, s);
      r := EvalExpr(h, d.body, fnScope, fuel);
    }

    /** The new scope of a call, with each parameter put to its argument. */
    method BindArgs(params: seq<string>, args: seq<Value>, s: ScopeId)
      requires Valid() && |params| <= |args| && s < |frames|
      modifies this
      ensures Valid() && nextFn == old(nextFn)
      ensures frames == old(frames) + [Frame(BindParams(params, args), Some(s))]
    {
      ghost var base := frames;
      frames := frames + [Frame(map[], Some(s))];
      var fnScope := |frames| - 1;
      for i := 0 to |params|
        invariant frames == base + [Frame(BindParams(params[..i], args), Some(s))]
        invariant nextFn == old(nextFn)
        invariant Valid()
      {
        assert params[..i + 1][..i] == params[..i];
        Put(fnScope, params[i], args[i]);
      }
      assert params[..|params|] == params;
    }

    /** An `if`: the subject once, then each branch's target in order until
        one matches; that branch's body is the result, `Null` if none. */
    method EvalIf(h: Host, cond: Node, branches: seq<IfBranch>, sc: ScopeId, fuel: nat) returns (r: Result<Value>)
      requires Valid() && sc < |frames|
      modifies this
      ensures Valid()
      ensures (r, Snapshot()) == IfExpr(h, old(Snapshot()), cond, branches, sc, fuel)
      decreases fuel, 2, 0
    {
      var subject := EvalExpr(h, cond, sc, fuel);
      if subject.Err? {
        return subject;
      }
      r := EvalBranchList(h, subject.value, branches, sc, fuel);
    }

    /** The branch loop of an `if`. */
    method EvalBranchList(h: Host, subject: Value, branches: seq<IfBranch>, sc: ScopeId, fuel: nat)
      returns (r: Result<Value>)
      requires Valid() && sc < |frames|
      modifies this
      ensures Valid()
      ensures (r, Snapshot()) == EvalBranches(h, old(Snapshot()), subject, branches, sc, fuel)
      decreases fuel, 1, 0
    {
      ghost var st1 := Snapshot();
      var i := 0;
      while i < |branches|
        invariant 0 <= i <= |branches|
        invariant Valid() && sc < |frames|
        invariant EvalBranches(h, st1, subject, branches, sc, fuel)
               == EvalBranches(h, Snapshot(), subject, branches[i..], sc, fuel)
      {
        assert branches[i..][1..] == branches[i + 1..];
        var target := EvalExpr(h, branches[i].target, sc, fuel);
        if target.Err? {
          return target;
        }
        if Eq(subject, target.value) {
          r := EvalExpr(h, branches[i].body, sc, fuel);
          return;
        }
        i := i + 1;
      }
      r := Ok(Null);
    }

    /** A block: a fresh scope under the current one; the value of the last
        expression, `Null` for an empty block; the first error aborts. */
    method EvalBlock(h: Host, exprs: seq<Node>, sc: ScopeId, fuel: nat) returns (r: Result<Value>)
      requires Valid() && sc < |frames|
      modifies this
      ensures Valid()
      ensures (r, Snapshot()) == Block(h, old(Snapshot()), exprs, sc, fuel)
      decreases fuel, 2, 0
    {
      var blockScope := |frames|;
      frames := frames + [Frame(map[], Some(sc))];
      r := EvalBlockBody(h, exprs, blockScope, fuel);
    }

    /** The loop of a block, in the block's own scope. */
    method EvalBlockBody(h: Host, exprs: seq<Node>, blockScope: ScopeId, fuel: nat) returns (r: Result<Value>)
      requires Valid() && blockScope < |frames|
      modifies this
      ensures Valid()
      ensures var (rs, st') := EvalSeq(h, old(Snapshot()), exprs, blockScope, fuel);
              Snapshot() == st' && r == if rs.Ok? then Ok(LastOr(rs.value, Null)) else Err(rs.error)
      decreases fuel, 1, 0
    {
      ghost var st1 := Snapshot();
      ghost var vals: seq<Value> := [];
      var returnVal := Null;
      var i := 0;
      while i < |exprs|
        invariant 0 <= i <= |exprs|
        invariant Valid() && blockScope < |frames|
        invariant EvalSeq(h, st1, exprs[..i], blockScope, fuel) == (Ok(vals), Snapshot())
        invariant returnVal == LastOr(vals, Null)
      {
        var v := EvalExpr(h, exprs[i], blockScope, fuel);
        assert exprs[..i + 1][..i] == exprs[..i];
        if v.Err? {
          EvalSeqStops(h, st1, exprs[..i + 1], exprs[i + 1..], blockScope, fuel);
          assert exprs[..i + 1] + exprs[i + 1..] == exprs;
          return Err(v.error);
        }
        returnVal := v.value;
        vals := vals + [v.value];
        i := i + 1;
      }
      assert exprs[..i] == exprs;
      r := Ok(returnVal);
    }
  }
}
