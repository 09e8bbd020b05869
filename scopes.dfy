/** The scope chain. A Go `scope` is a pair of a parent pointer and a
    `vars` map that every copy of the struct shares, so scopes behave as
    references: a closure and a block see the very map their defining
    scope writes. Here every scope lives in a store (`seq<Frame>`) and is
    referred to by its index; a scope's parent is always an older scope. */
module Scopes {
  import opened Errors
  import opened Values

  datatype Frame = Frame(vars: map<string, Value>, parent: Option<ScopeId>)

  /** Every parent link points to an older scope, so chains end at a root. */
  ghost predicate Linked(fs: seq<Frame>)
  {
    forall i :: 0 <= i < |fs| && fs[i].parent.Some? ==> fs[i].parent.value < i
  }

  /** `fs'` keeps every scope of `fs` (possibly with other bindings) under
      the same parent, and may add new scopes. */
  ghost predicate Extends(fs: seq<Frame>, fs': seq<Frame>)
  {
    && |fs| <= |fs'|
    && Linked(fs')
    && forall i :: 0 <= i < |fs| ==> fs'[i].parent == fs[i].parent
  }

  /** `sc.get(name)`: the binding in the scope itself, else in its parent's
      chain; an error when no scope of the chain defines `name`. */
  function Get(fs: seq<Frame>, sc: ScopeId, name: string): (r: Result<Value>)
    requires Linked(fs) && sc < |fs|
    ensures r.Err? ==> r.error == Undefined(name)
    decreases sc
  {
    if name in fs[sc].vars then Ok(fs[sc].vars[name])
    else match fs[sc].parent
      case Some(p) => Get(fs, p, name)
      case None => Err(Undefined(name))
  }

  /** `sc.put(name, v)`: binds `name` in the scope's own map and touches
      nothing else. */
  function Put(fs: seq<Frame>, sc: ScopeId, name: string, v: Value): (fs': seq<Frame>)
    requires sc < |fs|
    ensures |fs'| == |fs|
    ensures fs'[sc].vars == fs[sc].vars[name := v] && fs'[sc].parent == fs[sc].parent
    ensures fs'[..sc] == fs[..sc] && fs'[sc + 1..] == fs[sc + 1..]
    ensures Linked(fs) ==> Extends(fs, fs')
  {
    fs[sc := fs[sc].(vars := fs[sc].vars[name := v])]
  }

  /** `sc.update(name, v)`: overwrites the binding of the first scope of
      the chain that has one; an error when none has. */
  function Update(fs: seq<Frame>, sc: ScopeId, name: string, v: Value): (r: Result<seq<Frame>>)
    requires Linked(fs) && sc < |fs|
    ensures r.Ok? ==> |r.value| == |fs| && Extends(fs, r.value)
    ensures r.Err? ==> r.error == Undefined(name)
    decreases sc
  {
    if name in fs[sc].vars then Ok(Put(fs, sc, name, v))
    else match fs[sc].parent
      case Some(p) => Update(fs, p, name, v)
      case None => Err(Undefined(name))
  }

  // --------------------------------------------- the chain, declaratively

  /** The scopes on the parent chain of `sc`, nearest first: `sc` itself,
      then only older scopes. */
  function Ancestors(fs: seq<Frame>, sc: ScopeId): (c: seq<ScopeId>)
    requires Linked(fs) && sc < |fs|
    ensures |c| > 0 && c[0] == sc
    ensures forall i :: 0 < i < |c| ==> c[i] < sc
    decreases sc
  {
    match fs[sc].parent
    case None => [sc]
    case Some(p) => [sc] + Ancestors(fs, p)
  }

  /** Each scope of the chain is the parent of the one before it, and the
      chain ends at a scope without a parent. */
  lemma {:induction false} AncestorsChain(fs: seq<Frame>, sc: ScopeId)
    requires Linked(fs) && sc < |fs|
    ensures var c := Ancestors(fs, sc);
            && (forall i {:trigger fs[c[i]]} :: 0 <= i < |c| - 1 ==> fs[c[i]].parent == Some(c[i + 1]))
            && fs[c[|c| - 1]].parent.None?
    decreases sc
  {
    if fs[sc].parent.Some? {
      var p := fs[sc].parent.value;
      AncestorsChain(fs, p);
      var c := Ancestors(fs, sc);
      assert c[1..] == Ancestors(fs, p);
    }
  }

  /** The position in `c` of the first scope that defines `name`, or `|c|`. */
  function FirstDefining(fs: seq<Frame>, c: seq<ScopeId>, name: string): (i: nat)
    requires forall j :: 0 <= j < |c| ==> c[j] < |fs|
    ensures i <= |c|
    ensures i < |c| ==> name in fs[c[i]].vars
    ensures forall j :: 0 <= j < i ==> name !in fs[c[j]].vars
  {
    if c == [] then 0
    else if name in fs[c[0]].vars then 0
    else 1 + FirstDefining(fs, c[1..], name)
  }

  /** `get` returns the binding of the nearest scope on the chain that
      defines the name, and fails exactly when no scope of it does. */
  lemma {:induction false} GetNearest(fs: seq<Frame>, sc: ScopeId, name: string)
    requires Linked(fs) && sc < |fs|
    ensures var c := Ancestors(fs, sc);
            var i := FirstDefining(fs, c, name);
            && (Get(fs, sc, name).Ok? <==> i < |c|)
            && (i < |c| ==> Get(fs, sc, name).value == fs[c[i]].vars[name])
            && (i == |c| ==> Get(fs, sc, name).error == Undefined(name))
    decreases sc
  {
    var c := Ancestors(fs, sc);
    if name in fs[sc].vars {
      assert FirstDefining(fs, c, name) == 0;
    } else if fs[sc].parent.Some? {
      var p := fs[sc].parent.value;
      GetNearest(fs, p, name);
      assert c[1..] == Ancestors(fs, p);
    } else {
      assert c == [sc];
    }
  }

  /** `update` overwrites the binding of that same nearest scope, with `put`,
      and fails exactly when `get` would. */
  lemma {:induction false} UpdateNearest(fs: seq<Frame>, sc: ScopeId, name: string, v: Value)
    requires Linked(fs) && sc < |fs|
    ensures var c := Ancestors(fs, sc);
            var i := FirstDefining(fs, c, name);
            && (Update(fs, sc, name, v).Ok? <==> i < |c|)
            && (i < |c| ==> Update(fs, sc, name, v).value == Put(fs, c[i], name, v))
            && (i == |c| ==> Update(fs, sc, name, v).error == Undefined(name))
    decreases sc
  {
    var c := Ancestors(fs, sc);
    if name in fs[sc].vars {
      assert FirstDefining(fs, c, name) == 0;
    } else if fs[sc].parent.Some? {
      var p := fs[sc].parent.value;
      var c', i' := Ancestors(fs, p), FirstDefining(fs, Ancestors(fs, p), name);
      UpdateNearest(fs, p, name, v);
      assert c[1..] == c';
      assert FirstDefining(fs, c, name) == 1 + i';
      if i' < |c'| {
        assert c[1 + i'] == c'[i'];
      }
    } else {
      assert c == [sc];
      assert FirstDefining(fs, c, name) == 1;
    }
  }

  /** `update` never creates a binding: it succeeds exactly when `get`
      does, and afterwards every scope has the same set of names. */
  lemma UpdateNeverCreates(fs: seq<Frame>, sc: ScopeId, name: string, v: Value)
    requires Linked(fs) && sc < |fs|
    ensures Update(fs, sc, name, v).Ok? <==> Get(fs, sc, name).Ok?
    ensures Update(fs, sc, name, v).Ok? ==>
      var fs' := Update(fs, sc, name, v).value;
      forall j :: 0 <= j < |fs| ==> fs'[j].vars.Keys == fs[j].vars.Keys
  {
    UpdateNearest(fs, sc, name, v);
    GetNearest(fs, sc, name);
  }

  /** Scopes that keep their parents and their names have the same chains
      and the same nearest defining scope, whatever their values. */
  lemma {:induction false} SameShapeSameChain(fs: seq<Frame>, fs': seq<Frame>, sc: ScopeId)
    requires Linked(fs) && Linked(fs') && |fs| == |fs'| && sc < |fs|
    requires forall j :: 0 <= j < |fs| ==> fs'[j].parent == fs[j].parent
    ensures Ancestors(fs', sc) == Ancestors(fs, sc)
    decreases sc
  {
    if fs[sc].parent.Some? {
      SameShapeSameChain(fs, fs', fs[sc].parent.value);
    }
  }

  lemma {:induction false} SameNamesSameFirst(fs: seq<Frame>, fs': seq<Frame>, c: seq<ScopeId>, name: string)
    requires |fs| == |fs'| && forall j :: 0 <= j < |c| ==> c[j] < |fs|
    requires forall j :: 0 <= j < |fs| ==> fs'[j].vars.Keys == fs[j].vars.Keys
    ensures FirstDefining(fs', c, name) == FirstDefining(fs, c, name)
  {
    if c != [] {
      assert (name in fs[c[0]].vars) == (name in fs'[c[0]].vars);
      SameNamesSameFirst(fs, fs', c[1..], name);
    }
  }

  /** After a successful `update`, `get` from the same scope sees the new
      value. */
  lemma GetAfterUpdate(fs: seq<Frame>, sc: ScopeId, name: string, v: Value)
    requires Linked(fs) && sc < |fs|
    requires Update(fs, sc, name, v).Ok?
    ensures Get(Update(fs, sc, name, v).value, sc, name) == Ok(v)
  {
    var fs' := Update(fs, sc, name, v).value;
    UpdateNearest(fs, sc, name, v);
    UpdateNeverCreates(fs, sc, name, v);
    SameShapeSameChain(fs, fs', sc);
    var c := Ancestors(fs, sc);
    SameNamesSameFirst(fs, fs', c, name);
    GetNearest(fs', sc, name);
  }

  /** After a `put`, `get` from that scope sees the new value. */
  lemma GetAfterPut(fs: seq<Frame>, sc: ScopeId, name: string, v: Value)
    requires Linked(fs) && sc < |fs|
    ensures Get(Put(fs, sc, name, v), sc, name) == Ok(v)
  {
  }

  /** A `put` into one scope is invisible from every scope whose chain does
      not pass through it; in particular from all of its ancestors. */
  lemma {:induction false} GetUnaffectedByPut(fs: seq<Frame>, sc: ScopeId, name: string, v: Value,
                                               s: ScopeId, x: string)
    requires Linked(fs) && sc < |fs| && s < |fs|
    requires sc !in Ancestors(fs, s)
    ensures Get(Put(fs, sc, name, v), s, x) == Get(fs, s, x)
    decreases s
  {
    var fs' := Put(fs, sc, name, v);
    if x !in fs[s].vars && fs[s].parent.Some? {
      var p := fs[s].parent.value;
      assert Ancestors(fs, s)[1..] == Ancestors(fs, p);
      GetUnaffectedByPut(fs, sc, name, v, p, x);
    }
  }

  /** The ancestors of a scope never include the scope itself, so a `put`
      leaves what the parent chain sees unchanged. */
  lemma PutInvisibleToParent(fs: seq<Frame>, sc: ScopeId, name: string, v: Value, x: string)
    requires Linked(fs) && sc < |fs| && fs[sc].parent.Some?
    ensures Get(Put(fs, sc, name, v), fs[sc].parent.value, x) == Get(fs, fs[sc].parent.value, x)
  {
    var p := fs[sc].parent.value;
    assert sc !in Ancestors(fs, p);
    GetUnaffectedByPut(fs, sc, name, v, p, x);
  }

  /** Allocating a new scope changes what no existing scope sees. */
  lemma {:induction false} GetAfterAppend(fs: seq<Frame>, f: Frame, sc: ScopeId, x: string)
    requires Linked(fs) && Linked(fs + [f]) && sc < |fs|
    ensures Get(fs + [f], sc, x) == Get(fs, sc, x)
    decreases sc
  {
    assert (fs + [f])[sc] == fs[sc];
    if x !in fs[sc].vars && fs[sc].parent.Some? {
      GetAfterAppend(fs, f, fs[sc].parent.value, x);
    }
  }

  /** A successful `update` from a scope writes no scope younger than it. */
  lemma UpdateStaysBelow(fs: seq<Frame>, sc: ScopeId, name: string, v: Value)
    requires Linked(fs) && sc < |fs|
    requires Update(fs, sc, name, v).Ok?
    ensures Update(fs, sc, name, v).value[sc + 1..] == fs[sc + 1..]
  {
    UpdateNearest(fs, sc, name, v);
    var c := Ancestors(fs, sc);
    var i := FirstDefining(fs, c, name);
    var fs' := Put(fs, c[i], name, v);
    assert fs'[sc + 1..] == fs'[c[i] + 1..][sc - c[i]..];
  }

  /** Allocating a new scope does not change what an `update` from an
      existing scope does to the existing scopes. */
  lemma {:induction false} UpdateAfterAppend(fs: seq<Frame>, f: Frame, sc: ScopeId, x: string, v: Value)
    requires Linked(fs) && Linked(fs + [f]) && sc < |fs|
    ensures Update(fs + [f], sc, x, v).Ok? == Update(fs, sc, x, v).Ok?
    ensures Update(fs, sc, x, v).Ok? ==> Update(fs + [f], sc, x, v).value == Update(fs, sc, x, v).value + [f]
    ensures Update(fs, sc, x, v).Err? ==> Update(fs + [f], sc, x, v).error == Update(fs, sc, x, v).error
    decreases sc
  {
    assert (fs + [f])[sc] == fs[sc];
    if x in fs[sc].vars {
      assert Put(fs + [f], sc, x, v) == Put(fs, sc, x, v) + [f];
    } else if fs[sc].parent.Some? {
      UpdateAfterAppend(fs, f, fs[sc].parent.value, x, v);
    }
  }
}
