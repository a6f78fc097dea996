/** What the registry accepts, refuses and records, in terms of the function and its bindings alone. */
module RegistryMeaning {
  import opened Outcomes
  import opened Registry

  /** The k-th binding is the one of this parameter name: the last of that name. */
  predicate BindsTo(bs: seq<Binding>, n: string, k: int) {
    0 <= k < |bs| && n != "$return" && bs[k].name == n && forall j :: k < j < |bs| ==> bs[j].name != n
  }

  predicate IsBound(bs: seq<Binding>, n: string) {
    n != "$return" && exists k :: 0 <= k < |bs| && bs[k].name == n
  }

  predicate HasParamNamed(f: Func, n: string) { exists i :: 0 <= i < |f.params| && f.params[i].name == n }

  // ----- What can be wrong with a function -----

  /** An "inout" binding, or a $return binding that is not out. */
  predicate BadDirection(bs: seq<Binding>) {
    exists i :: 0 <= i < |bs| && (bs[i].direction.InOut? || (bs[i].name == "$return" && !bs[i].direction.Out?))
  }

  /** A context parameter without a binding, annotated with something that is not Context. */
  predicate BadContext(bs: seq<Binding>, f: Func) {
    exists i :: 0 <= i < |f.params| && f.params[i].name == "context" && !IsBound(bs, "context")
                && f.params[i].annotation.Some?
                && !(f.params[i].annotation.value.isType && f.params[i].annotation.value.isContext)
  }

  /** A parameter without a binding, other than the context, or a binding without a parameter. */
  predicate BadNames(bs: seq<Binding>, f: Func) {
    || (exists i :: 0 <= i < |f.params| && f.params[i].name != "context" && !IsBound(bs, f.params[i].name))
    || (exists k :: 0 <= k < |bs| && bs[k].name != "$return" && !HasParamNamed(f, bs[k].name))
  }

  /** An annotation that cannot be, whatever the type of the binding: Out without one argument, no type, no
      Out for an out binding, or Out for another. */
  predicate Misshapen(p: Param, b: Binding) {
    p.annotation.Some? &&
    var a := p.annotation.value;
    || (a.isOut && a.outArgs != 1)
    || !a.isType
    || (b.direction.Out? && !a.isOut)
    || (!b.direction.Out? && a.isOut)
  }

  /** The binding type of a parameter: "generic" for one annotated str or bytes on a binding without implicit
      output, otherwise that of its binding. */
  predicate HasType(typ: string, p: Param, b: Binding, implicit: Implicit) {
    && (typ == "generic" <==>
          b.typ == "generic" || (p.annotation.Some? && p.annotation.value.isStrOrBytes && !implicit(b.typ)))
    && (typ != "generic" ==> typ == b.typ)
  }

  /** The annotation is not accepted by the type check of that binding type, or breaks it. */
  ghost predicate Unfit(p: Param, b: Binding, implicit: Implicit) {
    p.annotation.Some? &&
    forall typ :: HasType(typ, p, b, implicit) ==> typ !in p.annotation.value.fits || typ in p.annotation.value.breaks
  }

  ghost predicate Faulty(p: Param, b: Binding, implicit: Implicit) { Misshapen(p, b) || Unfit(p, b, implicit) }

  predicate FirstReturnAt(bs: seq<Binding>, k: int) {
    0 <= k < |bs| && bs[k].name == "$return" && forall j :: 0 <= j < k ==> bs[j].name != "$return"
  }

  /** An annotated explicit return whose annotation does not go with the type of the $return binding. */
  ghost predicate FaultyReturn(bs: seq<Binding>, f: Func) {
    f.result.Some? && exists k :: FirstReturnAt(bs, k) && UnfitReturn(f.result.value, bs[k].typ)
  }

  predicate UnfitReturn(a: Annotation, typ: string) {
    a.noOrigin || a.isOut || !a.isType || typ !in a.fits || typ in a.breaks
  }

  ghost predicate NoFaultyParam(bs: seq<Binding>, f: Func, implicit: Implicit, n: nat)
    requires n <= |f.params|
  {
    forall i, k :: 0 <= i < n && BindsTo(bs, f.params[i].name, k) ==> !Faulty(f.params[i], bs[k], implicit)
  }

  // ----- The same in the registry's terms -----

  lemma TypeIs(p: Param, b: Binding, implicit: Implicit)
    ensures forall typ :: HasType(typ, p, b, implicit) <==> typ == BindType(p, b, implicit)
  {
  }

  lemma FaultyIff(p: Param, b: Binding, implicit: Implicit)
    ensures Faulty(p, b, implicit) <==> !ParamOk(p, b, implicit)
  {
    TypeIs(p, b, implicit);
    assert HasType(BindType(p, b, implicit), p, b, implicit);
  }

  lemma BoundAt(bs: seq<Binding>, n: string, k: int)
    requires BindsTo(bs, n, k)
    ensures n in Bound(bs) && Bound(bs)[n] == bs[k] && IsBound(bs, n)
  {
    BoundValue(bs, k);
  }

  lemma BoundIff(bs: seq<Binding>, n: string)
    ensures n in Bound(bs) <==> IsBound(bs, n)
  {
    BoundKey(bs, n);
    if IsBound(bs, n) {
      var k :| 0 <= k < |bs| && bs[k].name == n;
      assert Names(bs, n);
    }
  }

  lemma {:induction false} LastNamed(bs: seq<Binding>, n: string) returns (k: nat)
    requires IsBound(bs, n)
    ensures BindsTo(bs, n, k)
  {
    var last := |bs| - 1;
    if bs[last].name == n {
      k := last;
    } else {
      var i :| 0 <= i < |bs| && bs[i].name == n;
      assert bs[..last][i].name == n;
      k := LastNamed(bs[..last], n);
    }
  }

  lemma MatchesIff(bs: seq<Binding>, f: Func)
    ensures Matches(bs, f) <==> !BadDirection(bs) && !BadContext(bs, f) && !BadNames(bs, f)
  {
    var bound := Bound(bs);
    forall n ensures n in bound <==> IsBound(bs, n) { BoundIff(bs, n); }
    WithoutContextMeaning(f.params);
    var params := Checked(f.params, bound);
    assert forall p :: p in params <==> p in f.params && (p.name == "context" ==> "context" in bound);
    MatchesNames(bs, f, params);
  }

  lemma MatchesNames(bs: seq<Binding>, f: Func, params: seq<Param>)
    requires forall n :: n in Bound(bs) <==> IsBound(bs, n)
    requires forall p :: p in params <==> p in f.params && (p.name == "context" ==> "context" in Bound(bs))
    ensures NamesMatch(params, Bound(bs)) <==> !BadNames(bs, f)
  {
    var bound := Bound(bs);
    forall n | n in bound ensures HasParam(params, n) <==> HasParamNamed(f, n) {
      if HasParamNamed(f, n) {
        var i :| 0 <= i < |f.params| && f.params[i].name == n;
        assert f.params[i] in params;
        var j :| 0 <= j < |params| && params[j] == f.params[i];
      }
      if HasParam(params, n) {
        var j :| 0 <= j < |params| && params[j].name == n;
        assert params[j] in f.params;
      }
    }
    forall i | 0 <= i < |params| ensures params[i] in f.params {
    }
    if NamesMatch(params, bound) {
      forall i | 0 <= i < |f.params| && f.params[i].name != "context" ensures IsBound(bs, f.params[i].name) {
        assert f.params[i] in params;
      }
      forall k | 0 <= k < |bs| && bs[k].name != "$return" ensures HasParamNamed(f, bs[k].name) {
        assert IsBound(bs, bs[k].name);
      }
    }
  }

  lemma AllOkIff(bs: seq<Binding>, f: Func, implicit: Implicit)
    requires Matches(bs, f)
    ensures AllOk(Checked(f.params, Bound(bs)), Bound(bs), implicit) <==> NoFaultyParam(bs, f, implicit, |f.params|)
  {
    var bound := Bound(bs);
    var params := Checked(f.params, bound);
    WithoutContextMeaning(f.params);
    if AllOk(params, bound, implicit) {
      forall i, k | 0 <= i < |f.params| && BindsTo(bs, f.params[i].name, k)
        ensures !Faulty(f.params[i], bs[k], implicit)
      {
        BoundAt(bs, f.params[i].name, k);
        assert f.params[i] in params;
        FaultyIff(f.params[i], bs[k], implicit);
      }
    }
    if NoFaultyParam(bs, f, implicit, |f.params|) {
      forall j | 0 <= j < |params| ensures ParamOk(params[j], bound[params[j].name], implicit) {
        assert params[j] in f.params;
        BoundIff(bs, params[j].name);
        var k := LastNamed(bs, params[j].name);
        BoundAt(bs, params[j].name, k);
        FaultyIff(params[j], bs[k], implicit);
      }
    }
  }

  lemma ReturnOkIff(bs: seq<Binding>, f: Func, implicit: Implicit)
    ensures ReturnOk(f.result, bs, implicit) <==> !FaultyReturn(bs, f)
  {
    ReturnChoiceMeaning(bs, implicit);
    if HasExplicit(bs) {
      var k := FirstNamedReturn(bs);
      assert FirstReturnAt(bs, k);
    }
  }

  lemma {:induction false} FirstNamedReturn(bs: seq<Binding>) returns (k: nat)
    requires HasExplicit(bs)
    ensures FirstReturnAt(bs, k)
  {
    k := 0;
    if bs[0].name != "$return" {
      var i :| 0 <= i < |bs| && bs[i].name == "$return";
      assert bs[1..][i - 1].name == "$return";
      var j := FirstNamedReturn(bs[1..]);
      k := j + 1;
    }
  }

  // ----- What is accepted and what is refused -----

  /** A function is loaded if and only if nothing is wrong with it. */
  lemma LoadableIff(bs: seq<Binding>, f: Func, implicit: Implicit)
    ensures Loadable(bs, f, implicit) <==>
            && !BadDirection(bs) && !BadContext(bs, f) && !BadNames(bs, f)
            && NoFaultyParam(bs, f, implicit, |f.params|) && !FaultyReturn(bs, f)
  {
    MatchesIff(bs, f);
    if Matches(bs, f) { AllOkIff(bs, f, implicit); }
    ReturnOkIff(bs, f, implicit);
  }

  lemma {:induction false} RefusedAt(params: seq<Param>, bound: map<string, Binding>, implicit: Implicit, i: nat)
    requires forall j :: 0 <= j < |params| ==> params[j].name in bound
    requires i < |params| && !ParamOk(params[i], bound[params[i].name], implicit)
    requires forall j :: 0 <= j < i ==> ParamOk(params[j], bound[params[j].name], implicit)
    ensures FirstRefused(params, bound, implicit) == Some(ParamError(params[i], bound[params[i].name], implicit))
  {
    if i > 0 {
      RefusedAt(params[1..], bound, implicit, i - 1);
    }
  }

  lemma {:induction false} RefusedAtWithoutContext(params: seq<Param>, bound: map<string, Binding>, implicit: Implicit,
                                                   i: nat)
    requires "context" !in bound
    requires forall j :: 0 <= j < |params| ==> params[j].name in bound || params[j].name == "context"
    requires forall p :: p in WithoutContext(params) ==> p.name in bound
    requires i < |params| && params[i].name in bound && !ParamOk(params[i], bound[params[i].name], implicit)
    requires forall j :: 0 <= j < i && params[j].name in bound ==> ParamOk(params[j], bound[params[j].name], implicit)
    ensures FirstRefused(WithoutContext(params), bound, implicit)
         == Some(ParamError(params[i], bound[params[i].name], implicit))
  {
    var rest := WithoutContext(params[1..]);
    if params[0].name == "context" {
      RefusedAtWithoutContext(params[1..], bound, implicit, i - 1);
    } else if i > 0 {
      assert WithoutContext(params)[1..] == rest;
      assert forall p :: p in rest ==> p in WithoutContext(params);
      RefusedAtWithoutContext(params[1..], bound, implicit, i - 1);
    } else {
      assert WithoutContext(params)[0] == params[0];
    }
  }

  /** The exception of a faulty parameter: that of its type check if that breaks, and FunctionLoadError for
      everything else. */
  ghost predicate BlamesParam(exc: Exc, p: Param, b: Binding, implicit: Implicit) {
    p.annotation.Some? &&
    var breaks := p.annotation.value.breaks;
    if Misshapen(p, b) then exc == FunctionLoadError
    else forall typ :: HasType(typ, p, b, implicit) ==> exc == if typ in breaks then breaks[typ] else FunctionLoadError
  }

  lemma ParamErrorBlames(p: Param, b: Binding, implicit: Implicit)
    requires !ParamOk(p, b, implicit)
    ensures BlamesParam(ParamError(p, b, implicit), p, b, implicit)
  {
    TypeIs(p, b, implicit);
  }

  /** Bad directions, contexts and names are FunctionLoadErrors. */
  lemma RefusesMismatch(bs: seq<Binding>, f: Func, implicit: Implicit)
    requires BadDirection(bs) || BadContext(bs, f) || BadNames(bs, f)
    ensures !Loadable(bs, f, implicit) && Refusal(bs, f, implicit) == FunctionLoadError
  {
    MatchesIff(bs, f);
  }

  /** Otherwise the first faulty parameter decides. */
  lemma RefusesParam(bs: seq<Binding>, f: Func, implicit: Implicit, i: nat, k: nat)
    requires !BadDirection(bs) && !BadContext(bs, f) && !BadNames(bs, f)
    requires i < |f.params| && BindsTo(bs, f.params[i].name, k) && Faulty(f.params[i], bs[k], implicit)
    requires NoFaultyParam(bs, f, implicit, i)
    ensures !Loadable(bs, f, implicit) && BlamesParam(Refusal(bs, f, implicit), f.params[i], bs[k], implicit)
  {
    var bound := Bound(bs);
    LoadableIff(bs, f, implicit);
    MatchesIff(bs, f);
    BoundAt(bs, f.params[i].name, k);
    FaultyIff(f.params[i], bs[k], implicit);
    ParamErrorBlames(f.params[i], bs[k], implicit);
    forall j | 0 <= j < |f.params| ensures f.params[j].name in bound || f.params[j].name == "context" {
      BoundIff(bs, f.params[j].name);
    }
    forall j | 0 <= j < i && f.params[j].name in bound
      ensures ParamOk(f.params[j], bound[f.params[j].name], implicit)
    {
      BoundIff(bs, f.params[j].name);
      var l := LastNamed(bs, f.params[j].name);
      BoundAt(bs, f.params[j].name, l);
      FaultyIff(f.params[j], bs[l], implicit);
    }
    if "context" in bound {
      RefusedAt(f.params, bound, implicit, i);
    } else {
      WithoutContextMeaning(f.params);
      RefusedAtWithoutContext(f.params, bound, implicit, i);
    }
    NoneRefused(Checked(f.params, bound), bound, implicit);
  }

  /** And after the parameters the return annotation: asking a generic one without an origin for it raises
      AttributeError; a type check may break; everything else is a FunctionLoadError. */
  lemma RefusesReturn(bs: seq<Binding>, f: Func, implicit: Implicit, k: nat)
    requires !BadDirection(bs) && !BadContext(bs, f) && !BadNames(bs, f)
    requires NoFaultyParam(bs, f, implicit, |f.params|)
    requires FirstReturnAt(bs, k) && f.result.Some? && UnfitReturn(f.result.value, bs[k].typ)
    ensures !Loadable(bs, f, implicit)
    ensures var a := f.result.value;
            Refusal(bs, f, implicit) ==
            if a.noOrigin then AttributeError
            else if a.isOut || !a.isType then FunctionLoadError
            else if bs[k].typ in a.breaks then a.breaks[bs[k].typ]
            else FunctionLoadError
  {
    LoadableIff(bs, f, implicit);
    MatchesIff(bs, f);
    AllOkIff(bs, f, implicit);
    ReturnChoiceMeaning(bs, implicit);
    ReturnOkIff(bs, f, implicit);
    LateRefusal(bs, f, implicit);
  }

  // ----- What is recorded -----

  /** What the registry records of each parameter: it is an output if its binding is out and an input if not,
      with its annotation, whether it is deferred, and its binding type. */
  lemma ParamRecorded(info: FunctionInfo, name: string, bs: seq<Binding>, f: Func, implicit: Implicit, i: nat, k: nat)
    requires Describes(info, name, bs, f, implicit)
    requires i < |f.params| && BindsTo(bs, f.params[i].name, k)
    ensures var p, b := f.params[i], bs[k];
            && (p.name in info.outputs <==> b.direction.Out?) && (p.name in info.inputs <==> !b.direction.Out?)
            && var typeInfo := if b.direction.Out? then info.outputs[p.name] else info.inputs[p.name];
            && HasType(typeInfo.bindingName, p, b, implicit) && typeInfo.pytype == p.annotation
            && (typeInfo.deferred <==> p.annotation.Some? && p.annotation.value.isDeferred)
  {
    BoundAt(bs, f.params[i].name, k);
    TypeIs(f.params[i], bs[k], implicit);
    assert f.params[i] in f.params;
    assert HasType(BindType(f.params[i], bs[k], implicit), f.params[i], bs[k], implicit);
  }

  predicate IsImplicitAt(bs: seq<Binding>, implicit: Implicit, k: int) {
    0 <= k < |bs| && bs[k].name != "$return" && implicit(bs[k].typ)
  }

  /** What it records of the function: its name, whether it asks for a context, is triggered by HTTP, has
      deferred bindings, and what it returns: the type of the first $return, else of the last binding with
      implicit output, and nothing without either. */
  lemma FunctionRecorded(info: FunctionInfo, name: string, bs: seq<Binding>, f: Func, implicit: Implicit)
    requires Describes(info, name, bs, f, implicit)
    ensures info.name == name
    ensures info.requiresContext <==> HasParamNamed(f, "context") && !IsBound(bs, "context")
    ensures info.isHttp <==> exists n :: n in info.inputs && info.inputs[n].bindingName == "httpTrigger"
    ensures info.deferred <==> exists i :: 0 <= i < |f.params| && IsBound(bs, f.params[i].name)
                                           && f.params[i].annotation.Some? && f.params[i].annotation.value.isDeferred
    ensures info.hasReturn <==> info.returnType.Some?
    ensures info.hasReturn <==> exists k :: FirstReturnAt(bs, k) || IsImplicitAt(bs, implicit, k)
    ensures forall k :: FirstReturnAt(bs, k) ==> info.returnType == Some(ParamTypeInfo(bs[k].typ, f.result, false))
    ensures forall k :: IsImplicitAt(bs, implicit, k) && (forall j :: k < j ==> !IsImplicitAt(bs, implicit, j))
                        && (forall j :: 0 <= j < |bs| ==> bs[j].name != "$return") ==>
              info.returnType == Some(ParamTypeInfo(bs[k].typ, f.result, false))
  {
    BoundIff(bs, "context");
    ReturnRecorded(info, bs, f, implicit);
    if info.deferred {
      var p :| p in f.params && p.name in Bound(bs) && IsDeferred(p);
      BoundIff(bs, p.name);
    }
    forall i | 0 <= i < |f.params| && IsBound(bs, f.params[i].name) ensures f.params[i].name in Bound(bs) {
      BoundIff(bs, f.params[i].name);
    }
  }

  lemma ReturnRecorded(info: FunctionInfo, bs: seq<Binding>, f: Func, implicit: Implicit)
    requires DescribesReturn(info, bs, f, implicit)
    ensures info.hasReturn <==> exists k :: FirstReturnAt(bs, k) || IsImplicitAt(bs, implicit, k)
    ensures forall k :: FirstReturnAt(bs, k) ==> info.returnType == Some(ParamTypeInfo(bs[k].typ, f.result, false))
    ensures forall k :: IsImplicitAt(bs, implicit, k) && (forall j :: k < j ==> !IsImplicitAt(bs, implicit, j))
                        && (forall j :: 0 <= j < |bs| ==> bs[j].name != "$return") ==>
              info.returnType == Some(ParamTypeInfo(bs[k].typ, f.result, false))
  {
    ReturnChoiceMeaning(bs, implicit);
    if HasExplicit(bs) {
      var k := FirstNamedReturn(bs);
    }
    if HasImplicit(bs, implicit) {
      var k :| 0 <= k < |bs| && IsImplicit(bs[k], implicit);
      assert IsImplicitAt(bs, implicit, k);
    }
    forall k | IsImplicitAt(bs, implicit, k) ensures HasImplicit(bs, implicit) {
      assert IsImplicit(bs[k], implicit);
    }
    forall k | IsImplicitAt(bs, implicit, k) && (forall j :: k < j ==> !IsImplicitAt(bs, implicit, j))
      ensures IsLastImplicit(bs, implicit, k)
    {
      forall j | k < j < |bs| ensures !IsImplicit(bs[j], implicit) {
        assert !IsImplicitAt(bs, implicit, j);
      }
    }
  }
}
