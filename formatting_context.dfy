/** The scoped map under the formatting context. Its implementation is not
    part of this model; its contract is the one the context relies on: a
    stack of scopes, `set` writes into the innermost one, a lookup takes the
    innermost scope that holds the id, and `pop` discards the innermost
    scope with every value written into it since the matching `push`. */
module ScopedMap {
  import opened Wrappers
  import opened Variants

  type Scopes = seq<map<int, Value>>

  function Lookup(s: Scopes, id: int): (r: Option<Value>)
    ensures r.Some? <==> exists k :: 0 <= k < |s| && id in s[k]
    ensures r.Some? && id in s[|s| - 1] ==> r.value == s[|s| - 1][id]
    decreases |s|
  {
    if |s| == 0 then None
    else if id in s[|s| - 1] then Some(s[|s| - 1][id])
    else
      var r := Lookup(s[..|s| - 1], id);
      assert forall k :: 0 <= k < |s| - 1 ==> s[..|s| - 1][k] == s[k];
      r
  }

  function Assign(s: Scopes, id: int, v: Value): Scopes
    requires |s| >= 1
  {
    s[|s| - 1 := s[|s| - 1][id := v]]
  }

  function Push(s: Scopes): Scopes
  {
    s + [map[]]
  }

  function Pop(s: Scopes): Scopes
    requires |s| >= 1
  {
    s[..|s| - 1]
  }

  /** The sequence of operations a caller performs on the map. */
  datatype Op = SetOp(id: int, v: Value) | PushOp | PopOp

  /** `ops`, run from a stack of `depth` scopes, never pops below `floor`. */
  predicate KeepsDepth(depth: int, floor: int, ops: seq<Op>)
    decreases |ops|
  {
    |ops| == 0 ||
    match ops[0]
    case SetOp(_, _) => KeepsDepth(depth, floor, ops[1..])
    case PushOp => KeepsDepth(depth + 1, floor, ops[1..])
    case PopOp => depth - 1 >= floor && KeepsDepth(depth - 1, floor, ops[1..])
  }

  function DepthAfter(depth: int, ops: seq<Op>): int
    decreases |ops|
  {
    if |ops| == 0 then depth
    else match ops[0]
      case SetOp(_, _) => DepthAfter(depth, ops[1..])
      case PushOp => DepthAfter(depth + 1, ops[1..])
      case PopOp => DepthAfter(depth - 1, ops[1..])
  }

  function Run(s: Scopes, ops: seq<Op>): (t: Scopes)
    requires KeepsDepth(|s|, 1, ops) && |s| >= 1
    ensures |t| == DepthAfter(|s|, ops)
    decreases |ops|
  {
    if |ops| == 0 then s
    else match ops[0]
      case SetOp(id, v) => Run(Assign(s, id, v), ops[1..])
      case PushOp => Run(Push(s), ops[1..])
      case PopOp => Run(Pop(s), ops[1..])
  }

  lemma LookupAfterAssign(s: Scopes, id: int, v: Value, other: int)
    requires |s| >= 1
    ensures Lookup(Assign(s, id, v), id) == Some(v)
    ensures other != id ==> Lookup(Assign(s, id, v), other) == Lookup(s, other)
  {
    var t := Assign(s, id, v);
    assert t[..|t| - 1] == s[..|s| - 1];
  }

  lemma LookupAfterPush(s: Scopes, id: int)
    ensures Lookup(Push(s), id) == Lookup(s, id)
  {
    assert Push(s)[..|Push(s)| - 1] == s;
  }

  lemma {:induction false} RunKeepsLowerScopes(s: Scopes, ops: seq<Op>, k: nat)
    requires |s| >= 1 && k >= 1 && k <= |s| && KeepsDepth(|s|, k, ops)
    ensures KeepsDepth(|s|, 1, ops)
    ensures |Run(s, ops)| >= k && Run(s, ops)[..k - 1] == s[..k - 1]
    decreases |ops|
  {
    if |ops| > 0 {
      match ops[0]
      case SetOp(id, v) =>
        var s' := Assign(s, id, v);
        RunKeepsLowerScopes(s', ops[1..], k);
        assert s'[..k - 1] == s[..k - 1];
      case PushOp =>
        RunKeepsLowerScopes(Push(s), ops[1..], k);
        assert Push(s)[..k - 1] == s[..k - 1];
      case PopOp =>
        RunKeepsLowerScopes(Pop(s), ops[1..], k);
        assert Pop(s)[..k - 1] == s[..k - 1];
    }
  }

  /** The stack discipline: after any sets, pushes and pops that stay inside
      a pushed scope and return to it, the `pop` that matches the `push`
      gives back exactly the scopes (so every lookup) from before the push. */
  lemma PopRestores(s: Scopes, ops: seq<Op>, id: int)
    requires |s| >= 1
    requires KeepsDepth(|s| + 1, |s| + 1, ops) && DepthAfter(|s| + 1, ops) == |s| + 1
    ensures KeepsDepth(|Push(s)|, 1, ops)
    ensures Pop(Run(Push(s), ops)) == s
    ensures Lookup(Pop(Run(Push(s), ops)), id) == Lookup(s, id)
  {
    RunKeepsLowerScopes(Push(s), ops, |s| + 1);
    assert Push(s)[..|s|] == s;
  }
}

/** The formatting context: named layout properties kept in the scoped map
    as type-tagged values. */
module Formatting {
  import opened Wrappers
  import opened Variants
  import ScopedMap

  // The property ids, in the order of the enumeration (the BoxML entry is
  // compiled out in this model).
  const MathModeId := 0
  const SizeId := 1
  const ActualSizeId := 2
  const VariantId := 3
  const ColorId := 4
  const BackgroundColorId := 5
  const ScriptLevelId := 6
  const MinSizeId := 7
  const DisplayStyleId := 8
  const SizeMultId := 9
  const MathMLElementId := 10
  const AvailableWidthId := 11
  const StretchOpId := 12
  const StretchToWidthId := 13
  const StretchToHeightId := 14
  const StretchToDepthId := 15
  const StretchHorizId := 16
  const StretchVertId := 17
  const NegativeVeryVeryThickSpaceId := 18
  const ZeroSpaceId := 25
  const VeryVeryThickSpaceId := 32
  /** The number of named properties and the capacity of the map. */
  const LastNamedPropertyEntry := 33

  predicate IsPropertyId(id: int)
  {
    0 <= id < LastNamedPropertyEntry
  }

  class FormattingContext {
    /** The scopes of the map, innermost last. */
    var scopes: ScopedMap.Scopes

    ghost predicate Valid()
      reads this
    {
      |scopes| >= 1
    }

    constructor ()
      ensures Valid() && scopes == [map[]]
    {
      scopes := [map[]];
    }

    function Lookup(id: int): Option<Value>
      reads this
    {
      ScopedMap.Lookup(scopes, id)
    }

    /** `get<T>(id)`: the visible value of id, if it is a `Variant<T>`. */
    function Get(t: Tag, id: int): (r: Result<Value>)
      reads this
      requires IsPropertyId(id)
      ensures r.Ok? <==> Lookup(id).Some? && TagOf(Lookup(id).value) == t
      ensures r.Ok? ==> r.value == Lookup(id).value
    {
      As(t, Lookup(id))
    }

    /** `set<T>(id, v)` stores `Variant<T>::create(v)` in the innermost scope. */
    method Set(id: int, v: Value)
      requires Valid() && IsPropertyId(id)
      modifies this
      ensures Valid() && scopes == ScopedMap.Assign(old(scopes), id, v)
      ensures Lookup(id) == Some(v) && Get(TagOf(v), id) == Ok(v)
      ensures forall t :: t != TagOf(v) ==> Get(t, id) == TypeError
      ensures forall other :: other != id ==> Lookup(other) == old(Lookup(other))
    {
      scopes := scopes[|scopes| - 1 := scopes[|scopes| - 1][id := v]];
      forall other | true
        ensures ScopedMap.Lookup(scopes, id) == Some(v)
        ensures other != id ==> ScopedMap.Lookup(scopes, other) == ScopedMap.Lookup(old(scopes), other)
      {
        ScopedMap.LookupAfterAssign(old(scopes), id, v, other);
      }
    }

    method Push()
      requires Valid()
      modifies this
      ensures Valid() && scopes == ScopedMap.Push(old(scopes))
      ensures forall id :: Lookup(id) == old(Lookup(id))
    {
      scopes := scopes + [map[]];
      forall id | true ensures ScopedMap.Lookup(scopes, id) == ScopedMap.Lookup(old(scopes), id) {
        ScopedMap.LookupAfterPush(old(scopes), id);
      }
    }

    /** Popping the outermost scope is outside the scoped map's contract. */
    method Pop()
      requires Valid() && |scopes| >= 2
      modifies this
      ensures Valid() && scopes == ScopedMap.Pop(old(scopes))
    {
      scopes := scopes[..|scopes| - 1];
    }

    // The typed accessor pairs: each one reads and writes one fixed id.

    function GetBool(id: int): (r: Result<bool>)
      reads this
      requires IsPropertyId(id)
      ensures r.Ok? <==> Lookup(id).Some? && Lookup(id).value.BoolValue?
      ensures r.Ok? ==> Lookup(id) == Some(BoolValue(r.value))
    {
      var g := Get(BoolTag, id);
      if g.Ok? && g.value.BoolValue? then Ok(g.value.b) else TypeError
    }

    function GetScaled(id: int): (r: Result<int>)
      reads this
      requires IsPropertyId(id)
      ensures r.Ok? <==> Lookup(id).Some? && Lookup(id).value.ScaledValue?
      ensures r.Ok? ==> Lookup(id) == Some(ScaledValue(r.value))
    {
      var g := Get(ScaledTag, id);
      if g.Ok? && g.value.ScaledValue? then Ok(g.value.s) else TypeError
    }

    function GetMathMode(): (r: Result<bool>)
      reads this
      ensures r.Ok? <==> Lookup(MathModeId).Some? && Lookup(MathModeId).value.BoolValue?
      ensures r.Ok? ==> Lookup(MathModeId) == Some(BoolValue(r.value))
    {
      GetBool(MathModeId)
    }

    function GetSize(): (r: Result<int>)
      reads this
      ensures r.Ok? <==> Lookup(SizeId).Some? && Lookup(SizeId).value.ScaledValue?
      ensures r.Ok? ==> Lookup(SizeId) == Some(ScaledValue(r.value))
    {
      GetScaled(SizeId)
    }

    function GetActualSize(): (r: Result<int>)
      reads this
      ensures r.Ok? <==> Lookup(ActualSizeId).Some? && Lookup(ActualSizeId).value.ScaledValue?
      ensures r.Ok? ==> Lookup(ActualSizeId) == Some(ScaledValue(r.value))
    {
      GetScaled(ActualSizeId)
    }

    function GetMinSize(): (r: Result<int>)
      reads this
      ensures r.Ok? <==> Lookup(MinSizeId).Some? && Lookup(MinSizeId).value.ScaledValue?
      ensures r.Ok? ==> Lookup(MinSizeId) == Some(ScaledValue(r.value))
    {
      GetScaled(MinSizeId)
    }

    function GetDisplayStyle(): (r: Result<bool>)
      reads this
      ensures r.Ok? <==> Lookup(DisplayStyleId).Some? && Lookup(DisplayStyleId).value.BoolValue?
      ensures r.Ok? ==> Lookup(DisplayStyleId) == Some(BoolValue(r.value))
    {
      GetBool(DisplayStyleId)
    }

    function GetAvailableWidth(): (r: Result<int>)
      reads this
      ensures r.Ok? <==> Lookup(AvailableWidthId).Some? && Lookup(AvailableWidthId).value.ScaledValue?
      ensures r.Ok? ==> Lookup(AvailableWidthId) == Some(ScaledValue(r.value))
    {
      GetScaled(AvailableWidthId)
    }

    function GetStretchToWidth(): (r: Result<int>)
      reads this
      ensures r.Ok? <==> Lookup(StretchToWidthId).Some? && Lookup(StretchToWidthId).value.ScaledValue?
      ensures r.Ok? ==> Lookup(StretchToWidthId) == Some(ScaledValue(r.value))
    {
      GetScaled(StretchToWidthId)
    }

    function GetStretchToHeight(): (r: Result<int>)
      reads this
      ensures r.Ok? <==> Lookup(StretchToHeightId).Some? && Lookup(StretchToHeightId).value.ScaledValue?
      ensures r.Ok? ==> Lookup(StretchToHeightId) == Some(ScaledValue(r.value))
    {
      GetScaled(StretchToHeightId)
    }

    function GetStretchToDepth(): (r: Result<int>)
      reads this
      ensures r.Ok? <==> Lookup(StretchToDepthId).Some? && Lookup(StretchToDepthId).value.ScaledValue?
      ensures r.Ok? ==> Lookup(StretchToDepthId) == Some(ScaledValue(r.value))
    {
      GetScaled(StretchToDepthId)
    }

    function GetStretchH(): (r: Result<int>)
      reads this
      ensures r.Ok? <==> Lookup(StretchHorizId).Some? && Lookup(StretchHorizId).value.ScaledValue?
      ensures r.Ok? ==> Lookup(StretchHorizId) == Some(ScaledValue(r.value))
    {
      GetScaled(StretchHorizId)
    }

    function GetStretchV(): (r: Result<int>)
      reads this
      ensures r.Ok? <==> Lookup(StretchVertId).Some? && Lookup(StretchVertId).value.ScaledValue?
      ensures r.Ok? ==> Lookup(StretchVertId) == Some(ScaledValue(r.value))
    {
      GetScaled(StretchVertId)
    }


    function GetVariant(): (r: Result<nat>)
      reads this
      ensures r.Ok? <==> Lookup(VariantId).Some? && Lookup(VariantId).value.MathVariantValue?
      ensures r.Ok? ==> Lookup(VariantId) == Some(MathVariantValue(r.value))
    {
      var g := Get(MathVariantTag, VariantId);
      if g.Ok? && g.value.MathVariantValue? then Ok(g.value.variant) else TypeError
    }

    function GetColorOf(id: int): (r: Result<RGBColor>)
      reads this
      requires IsPropertyId(id)
      ensures r.Ok? <==> Lookup(id).Some? && Lookup(id).value.ColorValue?
      ensures r.Ok? ==> Lookup(id) == Some(ColorValue(r.value))
    {
      var g := Get(ColorTag, id);
      if g.Ok? && g.value.ColorValue? then Ok(g.value.color) else TypeError
    }

    function GetColor(): (r: Result<RGBColor>)
      reads this
      ensures r.Ok? <==> Lookup(ColorId).Some? && Lookup(ColorId).value.ColorValue?
      ensures r.Ok? ==> Lookup(ColorId) == Some(ColorValue(r.value))
    {
      GetColorOf(ColorId)
    }
    function GetBackground(): (r: Result<RGBColor>)
      reads this
      ensures r.Ok? <==> Lookup(BackgroundColorId).Some? && Lookup(BackgroundColorId).value.ColorValue?
      ensures r.Ok? ==> Lookup(BackgroundColorId) == Some(ColorValue(r.value))
    {
      GetColorOf(BackgroundColorId)
    }

    function GetScriptLevel(): (r: Result<int>)
      reads this
      ensures r.Ok? <==> Lookup(ScriptLevelId).Some? && Lookup(ScriptLevelId).value.IntValue?
      ensures r.Ok? ==> Lookup(ScriptLevelId) == Some(IntValue(r.value))
    {
      var g := Get(IntTag, ScriptLevelId);
      if g.Ok? && g.value.IntValue? then Ok(g.value.i) else TypeError
    }

    function GetSizeMultiplier(): (r: Result<real>)
      reads this
      ensures r.Ok? <==> Lookup(SizeMultId).Some? && Lookup(SizeMultId).value.DoubleValue?
      ensures r.Ok? ==> Lookup(SizeMultId) == Some(DoubleValue(r.value))
    {
      var g := Get(DoubleTag, SizeMultId);
      if g.Ok? && g.value.DoubleValue? then Ok(g.value.d) else TypeError
    }

    /** The math-space entries are addressed by a raw int, which must be one
        of the map's slots. */
    function GetMathSpace(i: int): (r: Result<Length>)
      reads this
      requires IsPropertyId(i)
      ensures r.Ok? <==> Lookup(i).Some? && Lookup(i).value.LengthValue?
      ensures r.Ok? ==> Lookup(i) == Some(LengthValue(r.value))
    {
      var g := Get(LengthTag, i);
      if g.Ok? && g.value.LengthValue? then Ok(g.value.length) else TypeError
    }

    method SetMathMode(m: bool)
      requires Valid()
      modifies this
      ensures Valid() && GetMathMode() == Ok(m)
      ensures scopes == ScopedMap.Assign(old(scopes), MathModeId, BoolValue(m))
      ensures forall other :: other != MathModeId ==> Lookup(other) == old(Lookup(other))
    {
      Set(MathModeId, BoolValue(m));
    }

    method SetSize(s: int)
      requires Valid()
      modifies this
      ensures Valid() && GetSize() == Ok(s)
      ensures scopes == ScopedMap.Assign(old(scopes), SizeId, ScaledValue(s))
      ensures forall other :: other != SizeId ==> Lookup(other) == old(Lookup(other))
    {
      Set(SizeId, ScaledValue(s));
    }

    method SetActualSize(s: int)
      requires Valid()
      modifies this
      ensures Valid() && GetActualSize() == Ok(s)
      ensures scopes == ScopedMap.Assign(old(scopes), ActualSizeId, ScaledValue(s))
      ensures forall other :: other != ActualSizeId ==> Lookup(other) == old(Lookup(other))
    {
      Set(ActualSizeId, ScaledValue(s));
    }

    method SetVariant(v: nat)
      requires Valid()
      modifies this
      ensures Valid() && GetVariant() == Ok(v)
      ensures scopes == ScopedMap.Assign(old(scopes), VariantId, MathVariantValue(v))
      ensures forall other :: other != VariantId ==> Lookup(other) == old(Lookup(other))
    {
      Set(VariantId, MathVariantValue(v));
    }

    method SetColor(c: RGBColor)
      requires Valid()
      modifies this
      ensures Valid() && GetColor() == Ok(c)
      ensures scopes == ScopedMap.Assign(old(scopes), ColorId, ColorValue(c))
      ensures forall other :: other != ColorId ==> Lookup(other) == old(Lookup(other))
    {
      Set(ColorId, ColorValue(c));
    }

    method SetBackground(c: RGBColor)
      requires Valid()
      modifies this
      ensures Valid() && GetBackground() == Ok(c)
      ensures scopes == ScopedMap.Assign(old(scopes), BackgroundColorId, ColorValue(c))
      ensures forall other :: other != BackgroundColorId ==> Lookup(other) == old(Lookup(other))
    {
      Set(BackgroundColorId, ColorValue(c));
    }

    method SetMinSize(s: int)
      requires Valid()
      modifies this
      ensures Valid() && GetMinSize() == Ok(s)
      ensures scopes == ScopedMap.Assign(old(scopes), MinSizeId, ScaledValue(s))
      ensures forall other :: other != MinSizeId ==> Lookup(other) == old(Lookup(other))
    {
      Set(MinSizeId, ScaledValue(s));
    }

    method SetDisplayStyle(b: bool)
      requires Valid()
      modifies this
      ensures Valid() && GetDisplayStyle() == Ok(b)
      ensures scopes == ScopedMap.Assign(old(scopes), DisplayStyleId, BoolValue(b))
      ensures forall other :: other != DisplayStyleId ==> Lookup(other) == old(Lookup(other))
    {
      Set(DisplayStyleId, BoolValue(b));
    }

    method SetSizeMultiplier(f: real)
      requires Valid()
      modifies this
      ensures Valid() && GetSizeMultiplier() == Ok(f)
      ensures scopes == ScopedMap.Assign(old(scopes), SizeMultId, DoubleValue(f))
      ensures forall other :: other != SizeMultId ==> Lookup(other) == old(Lookup(other))
    {
      Set(SizeMultId, DoubleValue(f));
    }

    method SetMathSpace(i: int, l: Length)
      requires Valid() && IsPropertyId(i)
      modifies this
      ensures Valid() && GetMathSpace(i) == Ok(l)
      ensures scopes == ScopedMap.Assign(old(scopes), i, LengthValue(l))
      ensures forall other :: other != i ==> Lookup(other) == old(Lookup(other))
    {
      Set(i, LengthValue(l));
    }

    method SetAvailableWidth(w: int)
      requires Valid()
      modifies this
      ensures Valid() && GetAvailableWidth() == Ok(w)
      ensures scopes == ScopedMap.Assign(old(scopes), AvailableWidthId, ScaledValue(w))
      ensures forall other :: other != AvailableWidthId ==> Lookup(other) == old(Lookup(other))
    {
      Set(AvailableWidthId, ScaledValue(w));
    }

    method SetStretchToWidth(w: int)
      requires Valid()
      modifies this
      ensures Valid() && GetStretchToWidth() == Ok(w)
      ensures scopes == ScopedMap.Assign(old(scopes), StretchToWidthId, ScaledValue(w))
      ensures forall other :: other != StretchToWidthId ==> Lookup(other) == old(Lookup(other))
    {
      Set(StretchToWidthId, ScaledValue(w));
    }

    method SetStretchToHeight(h: int)
      requires Valid()
      modifies this
      ensures Valid() && GetStretchToHeight() == Ok(h)
      ensures scopes == ScopedMap.Assign(old(scopes), StretchToHeightId, ScaledValue(h))
      ensures forall other :: other != StretchToHeightId ==> Lookup(other) == old(Lookup(other))
    {
      Set(StretchToHeightId, ScaledValue(h));
    }

    method SetStretchToDepth(d: int)
      requires Valid()
      modifies this
      ensures Valid() && GetStretchToDepth() == Ok(d)
      ensures scopes == ScopedMap.Assign(old(scopes), StretchToDepthId, ScaledValue(d))
      ensures forall other :: other != StretchToDepthId ==> Lookup(other) == old(Lookup(other))
    {
      Set(StretchToDepthId, ScaledValue(d));
    }

    method SetStretchH(h: int)
      requires Valid()
      modifies this
      ensures Valid() && GetStretchH() == Ok(h)
      ensures scopes == ScopedMap.Assign(old(scopes), StretchHorizId, ScaledValue(h))
      ensures forall other :: other != StretchHorizId ==> Lookup(other) == old(Lookup(other))
    {
      Set(StretchHorizId, ScaledValue(h));
    }

    method SetStretchV(v: int)
      requires Valid()
      modifies this
      ensures Valid() && GetStretchV() == Ok(v)
      ensures scopes == ScopedMap.Assign(old(scopes), StretchVertId, ScaledValue(v))
      ensures forall other :: other != StretchVertId ==> Lookup(other) == old(Lookup(other))
    {
      Set(StretchVertId, ScaledValue(v));
    }

    /** `setScriptLevel(l)` reads the current level and hands the difference
        to `addScriptLevel`, whose body is not part of this model; this is
        that difference, or the TypeError the read throws first. */
    function ScriptLevelDelta(l: int): (r: Result<int>)
      reads this
      ensures r.Ok? <==> GetScriptLevel().Ok?
      ensures r.Ok? ==> GetScriptLevel().value + r.value == l
    {
      match GetScriptLevel()
      case Ok(current) => Ok(l - current)
      case TypeError => TypeError
    }
  }

  /** Setting a property of one type and reading it back as another throws. */
  lemma MismatchedGetThrows(c: FormattingContext, id: int, t: Tag)
    requires IsPropertyId(id) && c.Lookup(id).Some? && TagOf(c.Lookup(id).value) != t
    ensures c.Get(t, id) == TypeError
  {
  }

  /** A property nothing was set for reads as a null pointer, so it throws. */
  lemma UnsetGetThrows(c: FormattingContext, id: int, t: Tag)
    requires IsPropertyId(id) && c.scopes == [map[]]
    ensures c.Get(t, id) == TypeError
  {
  }
}
