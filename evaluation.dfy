/** What `Context.evalExpr` computes, as functions: the evaluation of a node
    in a scope maps a store of scopes to a result and a new store. `fuel`
    bounds the depth of nested evaluation: evaluating a node takes one
    unit, and each of its sub-expressions, like the body of a closure it
    calls, starts from what is left; with none left the outcome is
    `OutOfFuel`, which stands for a computation that runs on. */
module Evaluation {
  import opened Bytes
  import opened Errors
  import opened Ast
  import opened Values
  import opened Scopes

  /** What the evaluator takes from outside the model: the display form of
      the values whose `String` method is not modelled, and the native
      functions a builtin value calls. */
  datatype Host = Host(show: Value -> string, native: (string, seq<Value>) -> Result<Value>)

  /** The interpreter's mutable state: the store of scopes, and the number
      of function literals evaluated so far (which gives each closure's
      definition its identity). */
  datatype State = State(frames: seq<Frame>, nextFn: nat)

  /** `st'` is a later state than `st`: its scopes are still linked, none
      has gone away, and the count of function literals has not dropped. */
  ghost predicate Grows(st: State, st': State)
  {
    Linked(st'.frames) && |st.frames| <= |st'.frames| && st.nextFn <= st'.nextFn
  }

  /** The value of a block: that of its last expression, `Null` for none. */
  function LastOr(vs: seq<Value>, default: Value): (r: Value)
  {
    if vs == [] then default else vs[|vs| - 1]
  }

  /** The bindings a call creates: each declared parameter, in order, to
      the argument at its position (a repeated name keeps the later one). */
  function BindParams(params: seq<string>, args: seq<Value>): (m: map<string, Value>)
    requires |params| <= |args|
    ensures m.Keys == set p | p in params
    ensures forall i :: 0 <= i < |params| && params[i] !in params[i + 1..] ==> m[params[i]] == args[i]
  {
    if params == [] then map[]
    else BindParams(params[..|params| - 1], args)[params[|params| - 1] := args[|params| - 1]]
  }

  /** The key an object literal files a computed key under. */
  function KeyString(h: Host, key: Value): (r: Result<string>)
    ensures r.Ok? <==> key.Str? || key.Int? || key.Float?
    ensures key.Str? ==> r == Ok(Chars(key.bytes))
    ensures key.Int? ==> r == Ok(FormatInt(key.i as int))
  {
    match key
    case Str(bs) => Ok(Chars(bs))
    case Int(n) => Ok(FormatInt(n as int))
    case Float(_) => Ok(Display(key, h.show))
    case _ => Err(RuntimeError("Expected a string or number as object key, got " + Display(key, h.show)))
  }

  /** `target.(key)` on a string: the one-byte string at an index in range,
      `Null` for a negative index or one past the end, and a fault for the
      index equal to the length, where the source's guard (`>` instead of
      `>=`) lets it through to an access that panics. */
  function IndexString(h: Host, s: seq<byte>, key: Value): (r: Result<Value>)
    ensures !key.Int? ==> r.Err? && r.error.RuntimeError?
    ensures key.Int? && (key.i < 0 || key.i as int > |s|) ==> r == Ok(Null)
    ensures key.Int? && 0 <= key.i as int < |s| ==> r == Ok(Str([s[key.i]]))
    ensures key.Int? && key.i as int == |s| ==> r.Err? && r.error.InternalFault?
  {
    if !key.Int? then
      Err(RuntimeError("Cannot index into string with non-integer index " + Display(key, h.show)))
    else if key.i < 0 || key.i as int > |s| then Ok(Null)
    else if key.i as int == |s| then Err(InternalFault("index out of range"))
    else Ok(Str([s[key.i]]))
  }

  /** `target.(key)` on a list: as for strings, with the element itself. */
  function IndexList(h: Host, a: seq<Value>, key: Value): (r: Result<Value>)
    ensures !key.Int? ==> r.Err? && r.error.RuntimeError?
    ensures key.Int? && (key.i < 0 || key.i as int > |a|) ==> r == Ok(Null)
    ensures key.Int? && 0 <= key.i as int < |a| ==> r == Ok(a[key.i])
    ensures key.Int? && key.i as int == |a| ==> r.Err? && r.error.InternalFault?
  {
    if !key.Int? then
      Err(RuntimeError("Cannot index into list with non-integer index " + Display(key, h.show)))
    else if key.i < 0 || key.i as int > |a| then Ok(Null)
    else if key.i as int == |a| then Err(InternalFault("index out of range"))
    else Ok(a[key.i])
  }

  /** The name under which `target.(key)` looks a key up: the name an
      object literal files the same key under (`KeyString`), and the
      display form for a key no literal could file. */
  function ObjectKey(h: Host, key: Value): (k: string)
    ensures KeyString(h, key).Ok? ==> k == KeyString(h, key).value
    ensures !key.Str? ==> k == Display(key, h.show)
  {
    if key.Str? then Chars(key.bytes) else Display(key, h.show)
  }

  /** `target.(key)` on an object: the entry filed under the key, `Null`
      when there is none. */
  function IndexObject(h: Host, m: map<string, Value>, key: Value): (r: Result<Value>)
    ensures r.Ok?
    ensures ObjectKey(h, key) in m ==> r.value == m[ObjectKey(h, key)]
    ensures ObjectKey(h, key) !in m ==> r.value == Null
  {
    var k := ObjectKey(h, key);
    if k in m then Ok(m[k]) else Ok(Null)
  }

  /** An entry an object literal files under a computed key is what a
      lookup with the same key value finds. */
  lemma LiteralKeyFound(h: Host, m: map<string, Value>, key: Value, v: Value)
    requires KeyString(h, key).Ok?
    ensures IndexObject(h, m[KeyString(h, key).value := v], key) == Ok(v)
  {
  }

  /** The lookup as the evaluator writes it: under the key's display form,
      which quotes a string. */
  function IndexObjectAsWritten(h: Host, m: map<string, Value>, key: Value): (r: Result<Value>)
    ensures r.Ok?
    ensures Display(key, h.show) in m ==> r.value == m[Display(key, h.show)]
    ensures Display(key, h.show) !in m ==> r.value == Null
  {
    var k := Display(key, h.show);
    if k in m then Ok(m[k]) else Ok(Null)
  }

  /** As written, an entry filed under a string key is never found by that
      same string: the display form has two more characters. */
  lemma StringKeyMissedAsWritten(h: Host, bs: seq<byte>, v: Value)
    ensures IndexObjectAsWritten(h, map[Chars(bs) := v], Str(bs)) == Ok(Null)
    ensures IndexObject(h, map[Chars(bs) := v], Str(bs)) == Ok(v)
  {
    assert |Display(Str(bs), h.show)| == |Chars(bs)| + 2;
  }

  /** Property access `target.(key)` once both sides are evaluated; only
      strings, lists and objects can be indexed, and indexing an object
      never fails. */
  function Index(h: Host, target: Value, key: Value): (r: Result<Value>)
    ensures target.Object? ==> r.Ok?
    ensures !target.Str? && !target.List? && !target.Object? ==> r.Err? && r.error.RuntimeError?
  {
    if target.Str? then IndexString(h, target.bytes, key)
    else if target.List? then IndexList(h, target.elems, key)
    else if target.Object? then IndexObject(h, target.entries, key)
    else Err(NotIndexable(h, target))
  }

  function NotIndexable(h: Host, target: Value): (e: Error)
    ensures e.RuntimeError?
  {
    RuntimeError("Expected string, list, or object in left-hand side of property access, got "
                 + Display(target, h.show))
  }

  /** Evaluating a function literal: a closure over the current scope with a
      definition of its own identity, bound under its name when it has one. */
  function FnLiteral(st: State, name: string, args: seq<string>, body: Node, sc: ScopeId): (out: (Result<Value>, State))
    requires Linked(st.frames) && sc < |st.frames|
    ensures Grows(st, out.1) && out.1.nextFn == st.nextFn + 1 && |out.1.frames| == |st.frames|
    // a closure over the current scope, with the next unused identity
    ensures out.0.Ok? && out.0.value.Fn? && out.0.value.scope == sc
    ensures out.0.value.defn == FnDefn(st.nextFn, name, args, body)
    // a named literal is bound in the current scope; an anonymous one binds nothing
    ensures name != "" ==> out.1.frames == Put(st.frames, sc, name, out.0.value)
    ensures name != "" ==> Get(out.1.frames, sc, name) == out.0
    ensures name == "" ==> out.1.frames == st.frames
  {
    var fn := Fn(FnDefn(st.nextFn, name, args, body), sc);
    var st1 := st.(nextFn := st.nextFn + 1);
    GetAfterPut(st1.frames, sc, name, fn);
    (Ok(fn), if name != "" then st1.(frames := Put(st1.frames, sc, name, fn)) else st1)
  }

  /** Assigning to a name: `:=` binds it in the current scope, `<-`
      rebinds it where it is defined and fails when it is not. */
  function BindName(st: State, x: string, isLocal: bool, v: Value, sc: ScopeId): (out: (Result<Value>, State))
    requires Linked(st.frames) && sc < |st.frames|
    ensures Grows(st, out.1) && out.1.nextFn == st.nextFn && |out.1.frames| == |st.frames|
    // on success the value is the result and `x` now reads as it
    ensures out.0.Ok? ==> out.0.value == v && Get(out.1.frames, sc, x) == Ok(v)
    // `:=` writes the current scope only; `<-` writes what `update` writes
    ensures isLocal ==> out.1.frames == Put(st.frames, sc, x, v)
    ensures !isLocal && out.0.Ok? ==> Update(st.frames, sc, x, v).Ok? && out.1.frames == Update(st.frames, sc, x, v).value
    // only a nonlocal assignment fails, exactly when `x` is unbound, and it changes nothing
    ensures out.0.Err? <==> !isLocal && Get(st.frames, sc, x).Err?
    ensures out.0.Err? ==> out.0.error == Undefined(x) && out.1 == st
  {
    if isLocal then
      GetAfterPut(st.frames, sc, x, v);
      (Ok(v), st.(frames := Put(st.frames, sc, x, v)))
    else
      UpdateNeverCreates(st.frames, sc, x, v);
      match Update(st.frames, sc, x, v)
      case Ok(fs) =>
        GetAfterUpdate(st.frames, sc, x, v);
        (Ok(v), st.(frames := fs))
      case Err(e) => (Err(e), st)
  }

  /** Storing an evaluated right-hand side into the left-hand side. */
  function AssignTo(st: State, left: Node, isLocal: bool, v: Value, sc: ScopeId): (out: (Result<Value>, State))
    requires Linked(st.frames) && sc < |st.frames|
    ensures Grows(st, out.1) && out.1.nextFn == st.nextFn
    ensures out.0.Ok? ==> left.IdentifierNode? && out.0.value == v
    // any other target is an internal fault that leaves the store alone
    ensures !left.IdentifierNode? ==> out.0.Err? && out.0.error.InternalFault? && out.1 == st
  {
    if left.IdentifierNode? then BindName(st, left.name, isLocal, v, sc)
    else (Err(InternalFault(AssignFault(left))), st)
  }

  /** The panic of an assignment to anything but a name. */
  function AssignFault(left: Node): (r: string)
  {
    if left.ListNode? then "list destructuring not implemented!"
    else if left.ObjectNode? then "object destructuring not implemented!"
    else if left.PropertyAccessNode? then "assign to property not implemented!"
    else "Illegal left-hand side of assignment"
  }

  /** The nodes whose evaluation evaluates sub-expressions. */
  predicate Compound(n: Node)
  {
    n.ListNode? || n.ObjectNode? || n.AssignmentNode? || n.PropertyAccessNode?
    || n.FnCallNode? || n.IfExprNode? || n.BlockNode?
  }

  /** `evalExpr`: one unit of fuel, then the step for the node's kind. */
  function Eval(h: Host, st: State, n: Node, sc: ScopeId, fuel: nat): (out: (Result<Value>, State))
    requires Linked(st.frames) && sc < |st.frames|
    ensures Grows(st, out.1)
    decreases fuel, 0, 0
  {
    if fuel == 0 then (Err(OutOfFuel), st) else Step(h, st, n, sc, fuel - 1)
  }

  /** The case of `evalExpr` for each kind of node. */
  function Step(h: Host, st: State, n: Node, sc: ScopeId, fuel: nat): (out: (Result<Value>, State))
    requires Linked(st.frames) && sc < |st.frames|
    ensures Grows(st, out.1)
    decreases fuel, 3, 0
  {
    match n
    case EmptyNode => (Ok(Empty), st)
    case NullNode => (Ok(Null), st)
    case StringNode(s) => (Ok(Str(s)), st)
    case NumberNode(isInteger, i, x) => (Ok(if isInteger then Int(i) else Float(x)), st)
    case BooleanNode(b) => (Ok(Bool(b)), st)
    case AtomNode(a) => (Ok(Atom(a)), st)
    case ListNode(elems) => ListLiteral(h, st, elems, sc, fuel)
    case ObjectNode(entries) => ObjectLiteral(h, st, entries, sc, fuel)
    case FnNode(name, args, body) => FnLiteral(st, name, args, body, sc)
    case IdentifierNode(x) => (Get(st.frames, sc, x), st)
    case AssignmentNode(isLocal, left, right) => Assignment(h, st, isLocal, left, right, sc, fuel)
    case PropertyAccessNode(left, right) => PropertyAccess(h, st, left, right, sc, fuel)
    case UnaryNode(_, _) => (Err(InternalFault("unaryNode not implemented!")), st)
    case BinaryNode(_, _, _) => (Err(InternalFault("binaryNode not implemented!")), st)
    case FnCallNode(callee, args) => FnCall(h, st, callee, args, sc, fuel)
    case IfExprNode(cond, branches) => IfExpr(h, st, cond, branches, sc, fuel)
    case BlockNode(exprs) => Block(h, st, exprs, sc, fuel)
  }

  /** A list literal: its elements left to right. */
  function ListLiteral(h: Host, st: State, elems: seq<Node>, sc: ScopeId, fuel: nat): (out: (Result<Value>, State))
    requires Linked(st.frames) && sc < |st.frames|
    ensures Grows(st, out.1)
    decreases fuel, 2, 0
  {
    var (rs, st1) := EvalSeq(h, st, elems, sc, fuel);
    (if rs.Ok? then Ok(List(rs.value)) else Err(rs.error), st1)
  }

  /** An object literal: its entries left to right. */
  function ObjectLiteral(h: Host, st: State, entries: seq<ObjectEntry>, sc: ScopeId, fuel: nat)
    : (out: (Result<Value>, State))
    requires Linked(st.frames) && sc < |st.frames|
    ensures Grows(st, out.1)
    decreases fuel, 2, 0
  {
    var (rm, st1) := EvalEntries(h, st, entries, sc, fuel);
    (if rm.Ok? then Ok(Object(rm.value)) else Err(rm.error), st1)
  }

  /** An assignment: the right-hand side, then the store; its value is the
      assigned value. */
  function Assignment(h: Host, st: State, isLocal: bool, left: Node, right: Node, sc: ScopeId, fuel: nat)
    : (out: (Result<Value>, State))
    requires Linked(st.frames) && sc < |st.frames|
    ensures Grows(st, out.1)
    decreases fuel, 2, 0
  {
    var (rv, st1) := Eval(h, st, right, sc, fuel);
    if rv.Err? then (rv, st1) else AssignTo(st1, left, isLocal, rv.value, sc)
  }

  /** A property access: the base, then the key, then the lookup. */
  function PropertyAccess(h: Host, st: State, left: Node, right: Node, sc: ScopeId, fuel: nat)
    : (out: (Result<Value>, State))
    requires Linked(st.frames) && sc < |st.frames|
    ensures Grows(st, out.1)
    decreases fuel, 2, 0
  {
    var (rl, st1) := Eval(h, st, left, sc, fuel);
    if rl.Err? then (rl, st1) else LookupKey(h, st1, rl.value, right, sc, fuel)
  }

  /** The second half of a property access: the key, then the lookup in the
      evaluated base. */
  function LookupKey(h: Host, st: State, target: Value, right: Node, sc: ScopeId, fuel: nat)
    : (out: (Result<Value>, State))
    requires Linked(st.frames) && sc < |st.frames|
    ensures Grows(st, out.1)
    decreases fuel, 1, 0
  {
    var (rr, st1) := Eval(h, st, right, sc, fuel);
    if rr.Err? then (rr, st1) else (Index(h, target, rr.value), st1)
  }

  /** A call: the callee, then the arguments, then the application. */
  function FnCall(h: Host, st: State, callee: Node, args: seq<Node>, sc: ScopeId, fuel: nat)
    : (out: (Result<Value>, State))
    requires Linked(st.frames) && sc < |st.frames|
    ensures Grows(st, out.1)
    decreases fuel, 2, 0
  {
    var (rf, st1) := Eval(h, st, callee, sc, fuel);
    if rf.Err? then (rf, st1)
    else
      var (ra, st2) := EvalSeq(h, st1, args, sc, fuel);
      if ra.Err? then (Err(ra.error), st2) else Apply(h, st2, rf.value, ra.value, fuel)
  }

  /** An `if`: the subject once, then the branches. */
  function IfExpr(h: Host, st: State, cond: Node, branches: seq<IfBranch>, sc: ScopeId, fuel: nat)
    : (out: (Result<Value>, State))
    requires Linked(st.frames) && sc < |st.frames|
    ensures Grows(st, out.1)
    decreases fuel, 2, 0
  {
    var (rc, st1) := Eval(h, st, cond, sc, fuel);
    if rc.Err? then (rc, st1) else EvalBranches(h, st1, rc.value, branches, sc, fuel)
  }

  /** A block: its expressions in a new scope under the current one; the
      value of the last, `Null` for none. */
  function Block(h: Host, st: State, exprs: seq<Node>, sc: ScopeId, fuel: nat): (out: (Result<Value>, State))
    requires Linked(st.frames) && sc < |st.frames|
    ensures Grows(st, out.1)
    decreases fuel, 2, 0
  {
    var st1 := st.(frames := st.frames + [Frame(map[], Some(sc))]);
    var (rs, st2) := EvalSeq(h, st1, exprs, |st.frames|, fuel);
    (if rs.Ok? then Ok(LastOr(rs.value, Null)) else Err(rs.error), st2)
  }

  /** The nodes evaluated left to right; the first error stops the rest. */
  function EvalSeq(h: Host, st: State, nodes: seq<Node>, sc: ScopeId, fuel: nat): (out: (Result<seq<Value>>, State))
    requires Linked(st.frames) && sc < |st.frames|
    ensures Grows(st, out.1)
    ensures out.0.Ok? ==> |out.0.value| == |nodes|
    decreases fuel, 1, |nodes|
  {
    if nodes == [] then (Ok([]), st)
    else
      var (rs, st1) := EvalSeq(h, st, nodes[..|nodes| - 1], sc, fuel);
      if rs.Err? then (Err(rs.error), st1)
      else
        var (rv, st2) := Eval(h, st1, nodes[|nodes| - 1], sc, fuel);
        if rv.Err? then (Err(rv.error), st2) else (Ok(rs.value + [rv.value]), st2)
  }

  /** One entry of an object literal: its key (a bare identifier names
      itself; any other key expression is evaluated), then its value. */
  function EvalEntry(h: Host, st: State, e: ObjectEntry, sc: ScopeId, fuel: nat): (out: (Result<(string, Value)>, State))
    requires Linked(st.frames) && sc < |st.frames|
    ensures Grows(st, out.1)
    decreases fuel, 1, 0
  {
    var (rk, st1) :=
      if e.key.IdentifierNode? then (Ok(e.key.name), st)
      else
        var (rv, st0) := Eval(h, st, e.key, sc, fuel);
        (if rv.Err? then Err(rv.error) else KeyString(h, rv.value), st0);
    if rk.Err? then (Err(rk.error), st1)
    else
      var (rv, st2) := Eval(h, st1, e.val, sc, fuel);
      if rv.Err? then (Err(rv.error), st2) else (Ok((rk.value, rv.value)), st2)
  }

  /** The entries of an object literal left to right; a later entry with the
      same key overwrites an earlier one. */
  function EvalEntries(h: Host, st: State, entries: seq<ObjectEntry>, sc: ScopeId, fuel: nat)
    : (out: (Result<map<string, Value>>, State))
    requires Linked(st.frames) && sc < |st.frames|
    ensures Grows(st, out.1)
    decreases fuel, 1, |entries|
  {
    if entries == [] then (Ok(map[]), st)
    else
      var (rm, st1) := EvalEntries(h, st, entries[..|entries| - 1], sc, fuel);
      if rm.Err? then (Err(rm.error), st1)
      else
        var (re, st2) := EvalEntry(h, st1, entries[|entries| - 1], sc, fuel);
        if re.Err? then (Err(re.error), st2) else (Ok(rm.value[re.value.0 := re.value.1]), st2)
  }

  /** The branches of an `if`, in order: the body of the first branch whose
      target the subject `Eq`s is the result; none matching gives `Null`. */
  function EvalBranches(h: Host, st: State, cond: Value, branches: seq<IfBranch>, sc: ScopeId, fuel: nat)
    : (out: (Result<Value>, State))
    requires Linked(st.frames) && sc < |st.frames|
    ensures Grows(st, out.1)
    decreases fuel, 1, |branches|
  {
    if branches == [] then (Ok(Null), st)
    else
      var (rt, st1) := Eval(h, st, branches[0].target, sc, fuel);
      if rt.Err? then (rt, st1)
      else if Eq(cond, rt.value) then Eval(h, st1, branches[0].body, sc, fuel)
      else EvalBranches(h, st1, cond, branches[1..], sc, fuel)
  }

  /** Calling an evaluated callee on evaluated arguments: a closure, a
      builtin (whose native function the host runs), or an error. */
  function Apply(h: Host, st: State, callee: Value, args: seq<Value>, fuel: nat): (out: (Result<Value>, State))
    requires Linked(st.frames)
    ensures Grows(st, out.1)
    decreases fuel, 1, 1
  {
    if callee.Fn? then ApplyClosure(h, st, callee.defn, callee.scope, args, fuel)
    else if callee.Builtin? then (h.native(callee.fnName, args), st)
    else (Err(RuntimeError(Display(callee, h.show) + " is not a function and cannot be called")), st)
  }

  /** Calling a closure: its body runs in a fresh scope whose parent is the
      closure's scope and which binds the parameters; slicing the arguments
      to the declared arity faults when there are fewer. */
  function ApplyClosure(h: Host, st: State, d: FnDefn, s: ScopeId, args: seq<Value>, fuel: nat)
    : (out: (Result<Value>, State))
    requires Linked(st.frames)
    ensures Grows(st, out.1)
    decreases fuel, 1, 0
  {
    if |args| < |d.args| then (Err(InternalFault("slice bounds out of range")), st)
    else if s >= |st.frames| then (Err(InternalFault("closure scope is not in the store")), st)
    else
      var st1 := st.(frames := st.frames + [Frame(BindParams(d.args, args), Some(s))]);
      Eval(h, st1, d.body, |st.frames|, fuel)
  }
}
