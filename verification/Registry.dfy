/** The function registry: a function is checked against its bindings and committed in one step at the
    end. Annotations are given by the facts that the checks ask of them. */
module Registry {
  import opened Outcomes

  datatype Direction = In | Out | InOut

  datatype Binding = Binding(name: string, typ: string, direction: Direction)

  /** `fits` holds the binding types whose type check accepts the annotation, and `breaks` those whose type
      check raises on it; for an Out annotation the facts after outArgs are those of its argument. A generic
      annotation may have no origin. */
  datatype Annotation = Annotation(
    isOut: bool, outArgs: nat, isType: bool, isStrOrBytes: bool, isContext: bool, isDeferred: bool,
    fits: set<string>, breaks: map<string, Exc>, noOrigin: bool)

  datatype Param = Param(name: string, annotation: Option<Annotation>)

  /** A Python function: its parameters, in order, and its return annotation. */
  datatype Func = Func(params: seq<Param>, result: Option<Annotation>)

  datatype ParamTypeInfo = ParamTypeInfo(bindingName: string, pytype: Option<Annotation>, deferred: bool)

  datatype FunctionInfo = FunctionInfo(
    name: string, requiresContext: bool, hasReturn: bool, isHttp: bool, deferred: bool,
    inputs: map<string, ParamTypeInfo>, outputs: map<string, ParamTypeInfo>, returnType: Option<ParamTypeInfo>)

  const RETURN := "$return"
  const CONTEXT := "context"
  const GENERIC := "generic"
  const HTTP_TRIGGER := "httpTrigger"

  /** has_implicit_output, by binding type. */
  type Implicit = string -> bool

  predicate DistinctNames(params: seq<Param>) {
    forall i, j :: 0 <= i < j < |params| ==> params[i].name != params[j].name
  }

  predicate HasParam(params: seq<Param>, name: string) {
    exists i :: 0 <= i < |params| && params[i].name == name
  }

  // ----- The folds over the bindings -----

  predicate DirectionOk(b: Binding) {
    !b.direction.InOut? && (b.name == RETURN ==> b.direction.Out?)
  }

  predicate IsImplicit(b: Binding, implicit: Implicit) {
    b.name != RETURN && implicit(b.typ)
  }

  /** The bindings that belong to parameters; a later binding of the same name replaces an earlier one. */
  function Bound(bs: seq<Binding>): map<string, Binding> {
    if bs == [] then map[]
    else
      var front, b := Bound(bs[..|bs| - 1]), bs[|bs| - 1];
      if b.name == RETURN then front else front[b.name := b]
  }

  /** The type of the first $return binding, otherwise of the last binding with implicit output. */
  function ReturnChoice(bs: seq<Binding>, implicit: Implicit): Option<string> {
    var first := FirstReturn(bs);
    if first.Some? then first else LastImplicit(bs, implicit)
  }

  function FirstReturn(bs: seq<Binding>): Option<string> {
    if bs == [] then None
    else if bs[0].name == RETURN then Some(bs[0].typ)
    else FirstReturn(bs[1..])
  }

  function LastImplicit(bs: seq<Binding>, implicit: Implicit): Option<string> {
    if bs == [] then None
    else
      var b := bs[|bs| - 1];
      if IsImplicit(b, implicit) then Some(b.typ) else LastImplicit(bs[..|bs| - 1], implicit)
  }

  predicate HasExplicit(bs: seq<Binding>) { exists i :: 0 <= i < |bs| && bs[i].name == RETURN }

  predicate HasImplicit(bs: seq<Binding>, implicit: Implicit) {
    exists i :: 0 <= i < |bs| && IsImplicit(bs[i], implicit)
  }

  predicate IsLastImplicit(bs: seq<Binding>, implicit: Implicit, k: nat)
    requires k < |bs|
  {
    IsImplicit(bs[k], implicit) && forall j :: k < j < |bs| ==> !IsImplicit(bs[j], implicit)
  }

  lemma {:induction false} FirstReturnSnoc(bs: seq<Binding>, b: Binding)
    ensures FirstReturn(bs + [b]) ==
            if FirstReturn(bs).Some? then FirstReturn(bs) else if b.name == RETURN then Some(b.typ) else None
  {
    if bs != [] {
      assert (bs + [b])[1..] == bs[1..] + [b];
      FirstReturnSnoc(bs[1..], b);
    }
  }

  /** Position never matters for a single $return; without one, the last implicit output decides; there
      is a return binding exactly when the function has a return. */
  lemma ReturnChoiceMeaning(bs: seq<Binding>, implicit: Implicit)
    ensures forall k :: 0 <= k < |bs| && bs[k].name == RETURN && (forall j :: 0 <= j < k ==> bs[j].name != RETURN) ==>
              ReturnChoice(bs, implicit) == Some(bs[k].typ)
    ensures forall k :: 0 <= k < |bs| && !HasExplicit(bs) && IsLastImplicit(bs, implicit, k) ==>
              ReturnChoice(bs, implicit) == Some(bs[k].typ)
    ensures ReturnChoice(bs, implicit).Some? <==> HasExplicit(bs) || HasImplicit(bs, implicit)
  {
    FirstReturnNone(bs);
    LastImplicitNone(bs, implicit);
    forall k | 0 <= k < |bs| && bs[k].name == RETURN && (forall j :: 0 <= j < k ==> bs[j].name != RETURN)
      ensures ReturnChoice(bs, implicit) == Some(bs[k].typ)
    {
      FirstReturnAt(bs, k);
    }
    forall k | 0 <= k < |bs| && !HasExplicit(bs) && IsLastImplicit(bs, implicit, k)
      ensures ReturnChoice(bs, implicit) == Some(bs[k].typ)
    {
      LastImplicitAt(bs, implicit, k);
    }
  }

  lemma {:induction false} FirstReturnAt(bs: seq<Binding>, k: nat)
    requires k < |bs| && bs[k].name == RETURN && forall j :: 0 <= j < k ==> bs[j].name != RETURN
    ensures FirstReturn(bs) == Some(bs[k].typ)
  {
    if k > 0 {
      FirstReturnAt(bs[1..], k - 1);
    }
  }

  lemma {:induction false} FirstReturnNone(bs: seq<Binding>)
    ensures FirstReturn(bs).Some? <==> HasExplicit(bs)
  {
    if bs != [] {
      FirstReturnNone(bs[1..]);
      assert forall i :: 0 < i < |bs| ==> bs[i] == bs[1..][i - 1];
    }
  }

  lemma {:induction false} LastImplicitAt(bs: seq<Binding>, implicit: Implicit, k: nat)
    requires k < |bs| && IsLastImplicit(bs, implicit, k)
    ensures LastImplicit(bs, implicit) == Some(bs[k].typ)
  {
    if k < |bs| - 1 {
      var front := bs[..|bs| - 1];
      assert forall j :: 0 <= j < |front| ==> front[j] == bs[j];
      LastImplicitAt(front, implicit, k);
    }
  }

  lemma {:induction false} LastImplicitNone(bs: seq<Binding>, implicit: Implicit)
    ensures LastImplicit(bs, implicit).Some? <==> HasImplicit(bs, implicit)
  {
    if bs != [] {
      var front := bs[..|bs| - 1];
      LastImplicitNone(front, implicit);
      assert forall j :: 0 <= j < |front| ==> front[j] == bs[j];
    }
  }

  predicate Names(bs: seq<Binding>, n: string) { exists i :: 0 <= i < |bs| && bs[i].name == n }

  lemma {:induction false} BoundKey(bs: seq<Binding>, n: string)
    ensures n in Bound(bs) <==> n != RETURN && Names(bs, n)
  {
    if bs != [] {
      var front := bs[..|bs| - 1];
      BoundKey(front, n);
      assert forall i :: 0 <= i < |front| ==> front[i] == bs[i];
      assert Names(bs, n) <==> Names(front, n) || bs[|bs| - 1].name == n;
    }
  }

  lemma {:induction false} BoundValue(bs: seq<Binding>, k: nat)
    requires k < |bs| && bs[k].name != RETURN && forall j :: k < j < |bs| ==> bs[j].name != bs[k].name
    ensures bs[k].name in Bound(bs) && Bound(bs)[bs[k].name] == bs[k]
  {
    if k < |bs| - 1 {
      BoundValue(bs[..|bs| - 1], k);
    }
  }

  lemma {:induction false} BoundMeaning(bs: seq<Binding>)
    ensures forall n :: n in Bound(bs) <==> n != RETURN && Names(bs, n)
    ensures forall k :: 0 <= k < |bs| && bs[k].name != RETURN
                        && (forall j :: k < j < |bs| ==> bs[j].name != bs[k].name) ==>
              bs[k].name in Bound(bs) && Bound(bs)[bs[k].name] == bs[k]
  {
    forall n ensures n in Bound(bs) <==> n != RETURN && Names(bs, n) {
      BoundKey(bs, n);
    }
    forall k | 0 <= k < |bs| && bs[k].name != RETURN && (forall j :: k < j < |bs| ==> bs[j].name != bs[k].name)
      ensures bs[k].name in Bound(bs) && Bound(bs)[bs[k].name] == bs[k]
    {
      BoundValue(bs, k);
    }
  }

  // ----- The checks of one function -----

  /** The parameters left once an unbound context parameter is set aside. */
  function Checked(params: seq<Param>, bound: map<string, Binding>): seq<Param> {
    if CONTEXT in bound then params else WithoutContext(params)
  }

  function WithoutContext(params: seq<Param>): seq<Param> {
    if params == [] then []
    else if params[0].name == CONTEXT then WithoutContext(params[1..])
    else [params[0]] + WithoutContext(params[1..])
  }

  predicate ContextOk(params: seq<Param>, bound: map<string, Binding>) {
    CONTEXT in bound || forall i :: 0 <= i < |params| && params[i].name == CONTEXT && params[i].annotation.Some? ==>
      params[i].annotation.value.isType && params[i].annotation.value.isContext
  }

  predicate NamesMatch(params: seq<Param>, bound: map<string, Binding>) {
    && (forall i :: 0 <= i < |params| ==> params[i].name in bound)
    && (forall n :: n in bound ==> HasParam(params, n))
  }

  /** The binding type a parameter is checked and transferred with. */
  function BindType(p: Param, b: Binding, implicit: Implicit): string {
    if p.annotation.Some? && p.annotation.value.isStrOrBytes && !implicit(b.typ) then GENERIC else b.typ
  }

  predicate IsDeferred(p: Param) { p.annotation.Some? && p.annotation.value.isDeferred }

  function InfoOf(p: Param, b: Binding, implicit: Implicit): ParamTypeInfo {
    ParamTypeInfo(BindType(p, b, implicit), p.annotation, IsDeferred(p))
  }

  /** An unannotated parameter is always accepted. */
  predicate ParamOk(p: Param, b: Binding, implicit: Implicit) {
    p.annotation.Some? ==>
      var a := p.annotation.value;
      && (a.isOut ==> a.outArgs == 1)
      && a.isType
      && (a.isOut <==> b.direction.Out?)
      && BindType(p, b, implicit) in a.fits && BindType(p, b, implicit) !in a.breaks
  }

  /** What a parameter that is not accepted raises. */
  function ParamError(p: Param, b: Binding, implicit: Implicit): Exc
    requires !ParamOk(p, b, implicit)
  {
    var a := p.annotation.value;
    if (a.isOut && a.outArgs != 1) || !a.isType || a.isOut != b.direction.Out? then FunctionLoadError
    else if BindType(p, b, implicit) in a.breaks then a.breaks[BindType(p, b, implicit)]
    else FunctionLoadError
  }

  /** Only an explicit return is checked against its annotation. */
  predicate ReturnOk(anno: Option<Annotation>, bs: seq<Binding>, implicit: Implicit) {
    HasExplicit(bs) && anno.Some? ==>
      && ReturnChoice(bs, implicit).Some? && ReturnFits(anno.value, ReturnChoice(bs, implicit).value)
  }

  predicate ReturnFits(a: Annotation, typ: string) {
    !a.noOrigin && !a.isOut && a.isType && typ in a.fits && typ !in a.breaks
  }

  /** What a return annotation that does not fit raises; asking a generic one for its origin comes first. */
  function ReturnError(a: Annotation, typ: string): Exc
    requires !ReturnFits(a, typ)
  {
    if a.noOrigin then AttributeError
    else if !a.isOut && a.isType && typ in a.breaks then a.breaks[typ]
    else FunctionLoadError
  }

  predicate Loadable(bs: seq<Binding>, f: Func, implicit: Implicit) {
    && Matches(bs, f)
    && AllOk(Checked(f.params, Bound(bs)), Bound(bs), implicit)
    && ReturnOk(f.result, bs, implicit)
  }

  predicate AllOk(params: seq<Param>, bound: map<string, Binding>, implicit: Implicit)
    requires forall i :: 0 <= i < |params| ==> params[i].name in bound
  {
    forall i :: 0 <= i < |params| ==> ParamOk(params[i], bound[params[i].name], implicit)
  }

  /** The exception of the first parameter that is not accepted. */
  function FirstRefused(params: seq<Param>, bound: map<string, Binding>, implicit: Implicit): Option<Exc>
    requires forall i :: 0 <= i < |params| ==> params[i].name in bound
  {
    if params == [] then None
    else if !ParamOk(params[0], bound[params[0].name], implicit) then
      Some(ParamError(params[0], bound[params[0].name], implicit))
    else FirstRefused(params[1..], bound, implicit)
  }

  lemma {:induction false} NoneRefused(params: seq<Param>, bound: map<string, Binding>, implicit: Implicit)
    requires forall i :: 0 <= i < |params| ==> params[i].name in bound
    ensures FirstRefused(params, bound, implicit).None? <==> AllOk(params, bound, implicit)
  {
    if params != [] {
      NoneRefused(params[1..], bound, implicit);
      assert forall i :: 0 < i < |params| ==> params[i] == params[1..][i - 1];
    }
  }

  lemma RefusedStep(params: seq<Param>, i: nat, bound: map<string, Binding>, implicit: Implicit)
    requires i < |params| && forall j :: 0 <= j < |params| ==> params[j].name in bound
    ensures FirstRefused(params[i..], bound, implicit) ==
            if ParamOk(params[i], bound[params[i].name], implicit) then FirstRefused(params[i + 1..], bound, implicit)
            else Some(ParamError(params[i], bound[params[i].name], implicit))
  {
    assert params[i..][1..] == params[i + 1..];
  }

  /** The checks before those of the parameters' annotations. */
  predicate Matches(bs: seq<Binding>, f: Func) {
    && (forall i :: 0 <= i < |bs| ==> DirectionOk(bs[i]))
    && ContextOk(f.params, Bound(bs))
    && NamesMatch(Checked(f.params, Bound(bs)), Bound(bs))
  }

  function ReturnRefusal(anno: Option<Annotation>, bs: seq<Binding>, implicit: Implicit): Exc
    requires !ReturnOk(anno, bs, implicit)
  {
    var choice := ReturnChoice(bs, implicit);
    if choice.None? then FunctionLoadError else ReturnError(anno.value, choice.value)
  }

  /** What loading a function that cannot be loaded raises: the exception of the first check that fails. */
  function Refusal(bs: seq<Binding>, f: Func, implicit: Implicit): Exc
    requires !Loadable(bs, f, implicit)
  {
    if !Matches(bs, f) then FunctionLoadError
    else
      var params := Checked(f.params, Bound(bs));
      NoneRefused(params, Bound(bs), implicit);
      match FirstRefused(params, Bound(bs), implicit)
      case Some(exc) => exc
      case None => ReturnRefusal(f.result, bs, implicit)
  }

  lemma LateRefusal(bs: seq<Binding>, f: Func, implicit: Implicit)
    requires Matches(bs, f) && AllOk(Checked(f.params, Bound(bs)), Bound(bs), implicit)
    requires !ReturnOk(f.result, bs, implicit)
    ensures Refusal(bs, f, implicit) == ReturnRefusal(f.result, bs, implicit)
  {
    NoneRefused(Checked(f.params, Bound(bs)), Bound(bs), implicit);
  }

  lemma {:induction false} WithoutContextMeaning(params: seq<Param>)
    ensures var r := WithoutContext(params);
            && (forall p :: p in r <==> p in params && p.name != CONTEXT)
            && (DistinctNames(params) ==> DistinctNames(r))
  {
    if params != [] {
      WithoutContextMeaning(params[1..]);
      var rest := WithoutContext(params[1..]);
      if DistinctNames(params) {
        assert DistinctNames(params[1..]);
        forall i, j | 0 <= i < j < |WithoutContext(params)|
          ensures WithoutContext(params)[i].name != WithoutContext(params)[j].name
        {
          if params[0].name != CONTEXT && i == 0 {
            assert rest[j - 1] in params[1..];
          }
        }
      }
    }
  }

  /** The type information of the parameters bound in one direction. */
  function Infos(params: seq<Param>, bound: map<string, Binding>, out: bool, implicit: Implicit)
    : map<string, ParamTypeInfo>
    requires forall i :: 0 <= i < |params| ==> params[i].name in bound
  {
    if params == [] then map[]
    else
      var front, p := params[..|params| - 1], params[|params| - 1];
      var rest := Infos(front, bound, out, implicit);
      if bound[p.name].direction.Out? == out then rest[p.name := InfoOf(p, bound[p.name], implicit)] else rest
  }

  lemma HasParamSnoc(params: seq<Param>, n: string)
    requires params != []
    ensures HasParam(params, n) <==> HasParam(params[..|params| - 1], n) || params[|params| - 1].name == n
  {
    var front := params[..|params| - 1];
    assert forall i :: 0 <= i < |front| ==> front[i] == params[i];
  }

  lemma {:induction false} InfosKey(params: seq<Param>, bound: map<string, Binding>, out: bool, implicit: Implicit,
                                    n: string)
    requires forall i :: 0 <= i < |params| ==> params[i].name in bound
    ensures n in Infos(params, bound, out, implicit) <==>
            n in bound && bound[n].direction.Out? == out && HasParam(params, n)
  {
    if params != [] {
      InfosKey(params[..|params| - 1], bound, out, implicit, n);
      HasParamSnoc(params, n);
    }
  }

  lemma {:induction false} InfosValue(params: seq<Param>, bound: map<string, Binding>, out: bool, implicit: Implicit,
                                      k: nat)
    requires forall i :: 0 <= i < |params| ==> params[i].name in bound
    requires DistinctNames(params)
    requires k < |params| && bound[params[k].name].direction.Out? == out
    ensures var r, p := Infos(params, bound, out, implicit), params[k];
            p.name in r && r[p.name] == InfoOf(p, bound[p.name], implicit)
  {
    var last := |params| - 1;
    if k < last {
      InfosValue(params[..last], bound, out, implicit, k);
      assert params[k].name != params[last].name;
    }
  }

  lemma {:induction false} InfosMeaning(params: seq<Param>, bound: map<string, Binding>, out: bool, implicit: Implicit)
    requires forall i :: 0 <= i < |params| ==> params[i].name in bound
    requires DistinctNames(params)
    ensures var r := Infos(params, bound, out, implicit);
            && (forall n :: n in r <==> n in bound && bound[n].direction.Out? == out && HasParam(params, n))
            && (forall i :: 0 <= i < |params| && bound[params[i].name].direction.Out? == out ==>
                  r[params[i].name] == InfoOf(params[i], bound[params[i].name], implicit))
  {
    var r := Infos(params, bound, out, implicit);
    forall n ensures n in r <==> n in bound && bound[n].direction.Out? == out && HasParam(params, n) {
      InfosKey(params, bound, out, implicit, n);
    }
    forall i | 0 <= i < |params| && bound[params[i].name].direction.Out? == out
      ensures r[params[i].name] == InfoOf(params[i], bound[params[i].name], implicit)
    {
      InfosValue(params, bound, out, implicit, i);
    }
  }

  predicate AnyDeferred(params: seq<Param>) {
    exists i :: 0 <= i < |params| && IsDeferred(params[i])
  }

  /** Inputs and outputs are disjoint, cover exactly the bound parameters, and follow the direction. */
  ghost predicate Partitions(info: FunctionInfo, bound: map<string, Binding>, f: Func, implicit: Implicit) {
    && info.inputs.Keys !! info.outputs.Keys
    && info.inputs.Keys + info.outputs.Keys == bound.Keys
    && (forall n :: n in info.outputs <==> n in bound && bound[n].direction.Out?)
    && (forall p :: p in f.params && p.name in bound ==>
          InfoOf(p, bound[p.name], implicit) ==
          if p.name in info.outputs then info.outputs[p.name]
          else if p.name in info.inputs then info.inputs[p.name]
          else ParamTypeInfo("", None, false))
  }

  /** The bound parameters are those of the signature, minus an unbound context. */
  ghost predicate CoversSignature(info: FunctionInfo, bound: map<string, Binding>, f: Func) {
    && (forall n :: n in bound <==> HasParam(f.params, n) && !(n == CONTEXT && info.requiresContext))
    && (info.requiresContext <==> HasParam(f.params, CONTEXT) && CONTEXT !in bound)
  }

  ghost predicate DescribesReturn(info: FunctionInfo, bs: seq<Binding>, f: Func, implicit: Implicit) {
    && (info.hasReturn <==> HasExplicit(bs) || HasImplicit(bs, implicit))
    && (info.returnType.Some? <==> info.hasReturn)
    && (info.hasReturn ==> && Some(info.returnType.value.bindingName) == ReturnChoice(bs, implicit)
                           && info.returnType.value.pytype == f.result
                           && !info.returnType.value.deferred)
  }

  ghost predicate DescribesFlags(info: FunctionInfo, bound: map<string, Binding>, f: Func) {
    && (info.isHttp <==> exists n :: n in info.inputs && info.inputs[n].bindingName == HTTP_TRIGGER)
    && (info.deferred <==> exists p :: p in f.params && p.name in bound && IsDeferred(p))
  }

  /** The result of checking a loadable function. */
  ghost predicate BuiltFrom(info: FunctionInfo, name: string, bs: seq<Binding>, f: Func, implicit: Implicit)
    requires Loadable(bs, f, implicit)
  {
    var bound := Bound(bs);
    var params := Checked(f.params, bound);
    var returnType := ReturnChoice(bs, implicit);
    && info.name == name
    && (info.requiresContext <==> HasParam(f.params, CONTEXT) && CONTEXT !in bound)
    && (info.hasReturn <==> HasExplicit(bs) || HasImplicit(bs, implicit))
    && (info.isHttp <==> exists n :: n in info.inputs.Keys && info.inputs[n].bindingName == HTTP_TRIGGER)
    && info.deferred == AnyDeferred(params)
    && info.inputs == Infos(params, bound, false, implicit) && info.outputs == Infos(params, bound, true, implicit)
    && info.returnType ==
       if returnType.Some? then Some(ParamTypeInfo(returnType.value, f.result, false)) else None
  }

  /** What a successful load promises about its result. */
  ghost predicate Describes(info: FunctionInfo, name: string, bs: seq<Binding>, f: Func, implicit: Implicit) {
    && info.name == name
    && Partitions(info, Bound(bs), f, implicit) && CoversSignature(info, Bound(bs), f)
    && DescribesReturn(info, bs, f, implicit) && DescribesFlags(info, Bound(bs), f)
  }

  class Registry {
    var functions: map<string, FunctionInfo>
    var deferredBindingsEnabled: bool

    /** Every function committed so far, also those that a later commit under their id replaced. */
    ghost var committed: seq<FunctionInfo>

    /** The flag is the disjunction over all commits: a function that is indexed again may lose its
        deferred bindings, and the registry's flag stays. */
    ghost predicate Valid()
      reads this
    {
      && (deferredBindingsEnabled <==> exists i :: 0 <= i < |committed| && committed[i].deferred)
      && (forall id :: id in functions ==> functions[id] in committed)
    }

    constructor ()
      ensures Valid() && functions == map[] && committed == [] && !deferredBindingsEnabled
    {
      functions, deferredBindingsEnabled, committed := map[], false, [];
    }

    /** The loop over the bindings in add_function and add_indexed_function. */
    static method FoldBindings(bs: seq<Binding>, implicit: Implicit)
      returns (r: Outcome<(bool, bool, map<string, Binding>, Option<string>)>)
      ensures r.Returned? <==> forall i :: 0 <= i < |bs| ==> DirectionOk(bs[i])
      ensures r.Raised? ==> r.exc == FunctionLoadError
      ensures r.Returned? ==>
                r.value == (HasExplicit(bs), HasImplicit(bs, implicit), Bound(bs), ReturnChoice(bs, implicit))
    {
      var hasExplicit, hasImplicit, bound: map<string, Binding> := false, false, map[];
      var returnName: Option<string> := None;
      var explicitSet := false;
      var i := 0;
      while i < |bs|
        invariant 0 <= i <= |bs|
        invariant forall j :: 0 <= j < i ==> DirectionOk(bs[j])
        invariant hasExplicit == HasExplicit(bs[..i]) && hasImplicit == HasImplicit(bs[..i], implicit)
        invariant bound == Bound(bs[..i])
        invariant explicitSet == FirstReturn(bs[..i]).Some? && returnName == ReturnChoice(bs[..i], implicit)
      {
        var b := bs[i];
        if !DirectionOk(b) { return Raised(FunctionLoadError); }
        PrefixStep(bs, i, implicit);
        if b.name == RETURN {
          hasExplicit := true;
        } else {
          if implicit(b.typ) { hasImplicit := true; }
          bound := bound[b.name := b];
        }
        if !explicitSet {
          if b.name == RETURN {
            returnName, explicitSet := Some(b.typ), true;
          } else if implicit(b.typ) {
            returnName := Some(b.typ);
          }
        }
        i := i + 1;
      }
      assert bs[..i] == bs;
      return Returned((hasExplicit, hasImplicit, bound, returnName));
    }

    static lemma PrefixStep(bs: seq<Binding>, i: nat, implicit: Implicit)
      requires i < |bs|
      ensures var before, after, b := bs[..i], bs[..i + 1], bs[i];
              && (HasExplicit(after) <==> HasExplicit(before) || b.name == RETURN)
              && (HasImplicit(after, implicit) <==> HasImplicit(before, implicit) || IsImplicit(b, implicit))
              && Bound(after) == (if b.name == RETURN then Bound(before) else Bound(before)[b.name := b])
              && FirstReturn(after) == (if FirstReturn(before).Some? then FirstReturn(before)
                                        else if b.name == RETURN then Some(b.typ) else None)
              && ReturnChoice(after, implicit) ==
                 (if FirstReturn(before).None? && (b.name == RETURN || implicit(b.typ)) then Some(b.typ)
                  else ReturnChoice(before, implicit))
    {
      var after := bs[..i + 1];
      assert after == bs[..i] + [bs[i]] && after[..i] == bs[..i];
      FirstReturnSnoc(bs[..i], bs[i]);
      assert after[i] == bs[i];
      assert forall j :: 0 <= j < i ==> after[j] == bs[..i][j];
    }

    /** One round of the loop of validate_function_params. */
    static method CheckParam(p: Param, b: Binding, implicit: Implicit) returns (r: Outcome<ParamTypeInfo>)
      ensures r.Returned? <==> ParamOk(p, b, implicit)
      ensures r.Returned? ==> r.value == InfoOf(p, b, implicit)
      ensures r.Raised? ==> r.exc == ParamError(p, b, implicit)
    {
      var info := InfoOf(p, b, implicit);
      if p.annotation.Some? {
        var a := p.annotation.value;
        if a.isOut && a.outArgs != 1 { return Raised(FunctionLoadError); }
        if !a.isType { return Raised(FunctionLoadError); }
        if b.direction.Out? && !a.isOut { return Raised(FunctionLoadError); }
        if !b.direction.Out? && a.isOut { return Raised(FunctionLoadError); }
        if info.bindingName in a.breaks { return Raised(a.breaks[info.bindingName]); }
        if info.bindingName !in a.fits { return Raised(FunctionLoadError); }
      }
      return Returned(info);
    }

    /** validate_function_params: the inputs and outputs by parameter name, and the deferred flag. */
    static method ValidateParams(params: seq<Param>, bound: map<string, Binding>, implicit: Implicit)
      returns (r: Outcome<(map<string, ParamTypeInfo>, map<string, ParamTypeInfo>, bool)>)
      ensures r.Returned? <==> NamesMatch(params, bound) && AllOk(params, bound, implicit)
      ensures r.Raised? ==>
                if NamesMatch(params, bound) then Some(r.exc) == FirstRefused(params, bound, implicit)
                else r.exc == FunctionLoadError
      ensures r.Returned? ==> r.value == (Infos(params, bound, false, implicit), Infos(params, bound, true, implicit),
                                          AnyDeferred(params))
    {
      if !NamesMatch(params, bound) { return Raised(FunctionLoadError); }
      var inputs: map<string, ParamTypeInfo>, outputs: map<string, ParamTypeInfo>, deferred := map[], map[], false;
      NoneRefused(params, bound, implicit);
      var i := 0;
      assert params[0..] == params;
      while i < |params|
        invariant 0 <= i <= |params|
        invariant FirstRefused(params, bound, implicit) == FirstRefused(params[i..], bound, implicit)
        invariant inputs == Infos(params[..i], bound, false, implicit)
        invariant outputs == Infos(params[..i], bound, true, implicit)
        invariant deferred == AnyDeferred(params[..i])
      {
        var p := params[i];
        var b := bound[p.name];
        RefusedStep(params, i, bound, implicit);
        var info := CheckParam(p, b, implicit);
        if info.Raised? { return Raised(info.exc); }
        ParamStep(params, i, bound, implicit);
        deferred := deferred || info.value.deferred;
        if b.direction.Out? {
          outputs := outputs[p.name := info.value];
        } else {
          inputs := inputs[p.name := info.value];
        }
        i := i + 1;
      }
      assert params[..i] == params;
      return Returned((inputs, outputs, deferred));
    }

    static lemma ParamStep(params: seq<Param>, i: nat, bound: map<string, Binding>, implicit: Implicit)
      requires i < |params| && forall j :: 0 <= j < |params| ==> params[j].name in bound
      ensures var before, after, p := params[..i], params[..i + 1], params[i];
              var info := InfoOf(p, bound[p.name], implicit);
              && (forall out :: Infos(after, bound, out, implicit) ==
                    if bound[p.name].direction.Out? == out then Infos(before, bound, out, implicit)[p.name := info]
                    else Infos(before, bound, out, implicit))
              && (AnyDeferred(after) <==> AnyDeferred(before) || info.deferred)
    {
      var before, after := params[..i], params[..i + 1];
      assert after[..i] == before && after[i] == params[i];
      assert forall j :: 0 <= j < i ==> after[j] == before[j];
    }

    static method FunctionReturnType(anno: Option<Annotation>, hasExplicit: bool, hasImplicit: bool,
                                     bindingName: Option<string>)
      returns (r: Outcome<Option<ParamTypeInfo>>)
      requires hasExplicit || hasImplicit <==> bindingName.Some?
      ensures r.Returned? <==> (hasExplicit && anno.Some? ==> ReturnFits(anno.value, bindingName.value))
      ensures r.Raised? ==> r.exc == ReturnError(anno.value, bindingName.value)
      ensures r.Returned? ==>
                r.value == if bindingName.Some? then Some(ParamTypeInfo(bindingName.value, anno, false)) else None
    {
      var pytype: Option<Annotation> := None;
      if hasExplicit && anno.Some? {
        if anno.value.noOrigin { return Raised(AttributeError); }
        if anno.value.isOut || !anno.value.isType { return Raised(FunctionLoadError); }
        pytype := anno;
        // The comparison with the tuple (str, bytes) by identity never holds, so the name stays.
        if bindingName.value in anno.value.breaks { return Raised(anno.value.breaks[bindingName.value]); }
        if bindingName.value !in anno.value.fits { return Raised(FunctionLoadError); }
      }
      if hasImplicit && anno.Some? { pytype := anno; }
      return Returned(if bindingName.Some? then Some(ParamTypeInfo(bindingName.value, pytype, false)) else None);
    }

    /** The checks of add_function and add_indexed_function, up to the commit. */
    static method Examine(name: string, bs: seq<Binding>, f: Func, implicit: Implicit)
      returns (r: Outcome<FunctionInfo>)
      ensures r.Returned? <==> Loadable(bs, f, implicit)
      ensures r.Returned? ==> BuiltFrom(r.value, name, bs, f, implicit)
      ensures r.Raised? ==> r.exc == Refusal(bs, f, implicit)
    {
      var folded := FoldBindings(bs, implicit);
      if folded.Raised? { return Raised(folded.exc); }
      var (hasExplicit, hasImplicit, bound, returnName) := folded.value;
      ReturnChoiceMeaning(bs, implicit);
      if !ContextOk(f.params, bound) { return Raised(FunctionLoadError); }
      var params := Checked(f.params, bound);
      var types := ValidateParams(params, bound, implicit);
      if types.Raised? { return Raised(types.exc); }
      var (inputs, outputs, deferred) := types.value;
      var returnType := FunctionReturnType(f.result, hasExplicit, hasImplicit, returnName);
      if returnType.Raised? {
        LateRefusal(bs, f, implicit);
        return Raised(returnType.exc);
      }
      return Returned(FunctionInfo(
        name, HasParam(f.params, CONTEXT) && CONTEXT !in bound, hasExplicit || hasImplicit,
        exists n :: n in inputs.Keys && inputs[n].bindingName == HTTP_TRIGGER,
        deferred, inputs, outputs, returnType.value));
    }

    /** add_function and add_indexed_function: all or nothing. */
    method AddFunction(id: string, name: string, bs: seq<Binding>, f: Func, implicit: Implicit)
      returns (r: Outcome<FunctionInfo>)
      requires Valid() && DistinctNames(f.params)
      modifies this
      ensures Valid()
      ensures r.Returned? <==> Loadable(bs, f, implicit)
      ensures r.Raised? ==>
                && r.exc == Refusal(bs, f, implicit)
                && functions == old(functions) && deferredBindingsEnabled == old(deferredBindingsEnabled)
                && committed == old(committed)
      ensures r.Returned? ==>
                && Describes(r.value, name, bs, f, implicit)
                && functions == old(functions)[id := r.value] && committed == old(committed) + [r.value]
                && deferredBindingsEnabled == (old(deferredBindingsEnabled) || r.value.deferred)
    {
      r := Examine(name, bs, f, implicit);
      if r.Raised? { return; }
      InfoDescribes(r.value, name, bs, f, implicit);
      Commit(id, r.value);
    }

    /** add_func_to_registry_and_return_funcinfo. */
    method Commit(id: string, info: FunctionInfo)
      requires Valid()
      modifies this
      ensures Valid()
      ensures functions == old(functions)[id := info] && committed == old(committed) + [info]
      ensures deferredBindingsEnabled == (old(deferredBindingsEnabled) || info.deferred)
    {
      functions := functions[id := info];
      if !deferredBindingsEnabled { deferredBindingsEnabled := info.deferred; }
      committed := committed + [info];
      assert committed[|committed| - 1] == info;
      assert forall i :: 0 <= i < |old(committed)| ==> committed[i] == old(committed)[i];
    }

    static lemma InfoDescribes(info: FunctionInfo, name: string, bs: seq<Binding>, f: Func, implicit: Implicit)
      requires DistinctNames(f.params) && Loadable(bs, f, implicit) && BuiltFrom(info, name, bs, f, implicit)
      ensures Describes(info, name, bs, f, implicit)
    {
      var params := Checked(f.params, Bound(bs));
      ReturnChoiceMeaning(bs, implicit);
      CheckedMeaning(f.params, Bound(bs));
      InfoPartitions(info, params, Bound(bs), f, implicit);
      InfoFlags(info, params, Bound(bs), f);
    }

    static lemma InfoPartitions(info: FunctionInfo, params: seq<Param>, bound: map<string, Binding>,
                                f: Func, implicit: Implicit)
      requires DistinctNames(params) && NamesMatch(params, bound)
      requires forall p :: p in f.params && p.name in bound ==> p in params
      requires info.inputs == Infos(params, bound, false, implicit)
      requires info.outputs == Infos(params, bound, true, implicit)
      ensures Partitions(info, bound, f, implicit)
    {
      InfosMeaning(params, bound, false, implicit);
      InfosMeaning(params, bound, true, implicit);
      forall p | p in f.params && p.name in bound
        ensures InfoOf(p, bound[p.name], implicit) ==
                if p.name in info.outputs then info.outputs[p.name]
                else if p.name in info.inputs then info.inputs[p.name]
                else ParamTypeInfo("", None, false)
      {
        var i :| 0 <= i < |params| && params[i] == p;
        assert HasParam(params, p.name);
      }
    }

    static lemma InfoFlags(info: FunctionInfo, params: seq<Param>, bound: map<string, Binding>, f: Func)
      requires NamesMatch(params, bound)
      requires forall p :: p in params <==> p in f.params && p.name in bound
      requires info.deferred == AnyDeferred(params)
      requires info.isHttp <==> exists n :: n in info.inputs.Keys && info.inputs[n].bindingName == HTTP_TRIGGER
      ensures DescribesFlags(info, bound, f)
    {
    }

    /** The checked parameters are those of the function, less an unbound context. */
    static lemma CheckedMeaning(params: seq<Param>, bound: map<string, Binding>)
      requires DistinctNames(params)
      ensures var r := Checked(params, bound);
              && DistinctNames(r)
              && (forall p :: p in r <==> p in params && (p.name == CONTEXT ==> CONTEXT in bound))
              && (forall n :: HasParam(r, n) <==> HasParam(params, n) && (n == CONTEXT ==> CONTEXT in bound))
    {
      WithoutContextMeaning(params);
      var r := Checked(params, bound);
      forall n ensures HasParam(r, n) <==> HasParam(params, n) && (n == CONTEXT ==> CONTEXT in bound) {
        if HasParam(r, n) {
          var i :| 0 <= i < |r| && r[i].name == n;
          assert r[i] in params;
        }
        if HasParam(params, n) && (n == CONTEXT ==> CONTEXT in bound) {
          var i :| 0 <= i < |params| && params[i].name == n;
          assert params[i] in r;
        }
      }
    }
  }

  function BlobAnnotation(deferred: bool): Annotation {
    Annotation(false, 0, true, false, false, deferred, {"blob"}, map[], false)
  }

  function BlobFunction(deferred: bool): Func { Func([Param("x", Some(BlobAnnotation(deferred)))], None) }

  const BLOB_BINDINGS := [Binding("x", "blob", In)]

  lemma BlobLoads(deferred: bool, implicit: Implicit)
    ensures Loadable(BLOB_BINDINGS, BlobFunction(deferred), implicit)
    ensures Bound(BLOB_BINDINGS) == map["x" := BLOB_BINDINGS[0]]
  {
    var bs := BLOB_BINDINGS;
    assert bs[..0] == [];
    assert Bound(bs) == map["x" := bs[0]];
    var params := BlobFunction(deferred).params;
    WithoutContextMeaning(params);
    assert params[1..] == [] && WithoutContext(params) == params;
    assert HasParam(params, "x") by { assert params[0].name == "x"; }
    assert !HasExplicit(bs);
  }

  lemma BlobIsDeferred(info: FunctionInfo, deferred: bool, implicit: Implicit)
    requires Describes(info, "f", BLOB_BINDINGS, BlobFunction(deferred), implicit)
    ensures info.deferred == deferred
  {
    BlobLoads(deferred, implicit);
    assert BlobFunction(deferred).params[0] in BlobFunction(deferred).params;
  }

  method AddBlob(registry: Registry, deferred: bool, implicit: Implicit)
    requires registry.Valid()
    modifies registry
    ensures registry.Valid() && registry.functions.Keys == old(registry.functions.Keys) + {"f"}
    ensures registry.functions["f"].deferred == deferred
    ensures registry.deferredBindingsEnabled == (old(registry.deferredBindingsEnabled) || deferred)
  {
    BlobLoads(deferred, implicit);
    var info := registry.AddFunction("f", "f", BLOB_BINDINGS, BlobFunction(deferred), implicit);
    BlobIsDeferred(info.value, deferred, implicit);
  }

  /** A function indexed with a deferred binding and then again without leaves the registry's flag set,
      though no registered function has deferred bindings. */
  method FlagOutlivesFunction(implicit: Implicit) returns (registry: Registry)
    ensures fresh(registry) && registry.deferredBindingsEnabled
    ensures registry.functions.Keys == {"f"} && !registry.functions["f"].deferred
  {
    registry := new Registry();
    AddBlob(registry, true, implicit);
    AddBlob(registry, false, implicit);
  }
}
