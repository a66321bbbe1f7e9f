/** Type-tagged values: the `Variant<T>` wrappers stored in the formatting
    context, and the checked extraction `as<T>`. A `Variant<T>` holds one
    value fixed at creation (there is no setter), so each instantiation
    becomes one constructor of an immutable datatype, and the dynamic cast
    of `as<T>` becomes a comparison of tags. */
module Variants {
  import opened Wrappers

  /** The error that `as<T>` throws. */
  datatype Result<T> = Ok(value: T) | TypeError

  /** The RGB color and length types are declared outside this model; they
      appear here with the fields the layout code reads. */
  datatype RGBColor = RGBColor(red: nat, green: nat, blue: nat)
  datatype Length = Length(value: real, unitCode: nat)

  /** The types the formatting context instantiates `Variant<T>` with. */
  datatype Tag = BoolTag | IntTag | ScaledTag | DoubleTag | MathVariantTag | ColorTag | LengthTag | ElementTag

  /** A value created by `Variant<T>::create`; the field is `getValue()`. */
  datatype Value =
    | BoolValue(b: bool)
    | IntValue(i: int)
    | ScaledValue(s: int)
    | DoubleValue(d: real)
    | MathVariantValue(variant: nat)
    | ColorValue(color: RGBColor)
    | LengthValue(length: Length)
    | ElementValue(element: nat)

  function TagOf(v: Value): Tag
  {
    match v
    case BoolValue(_) => BoolTag
    case IntValue(_) => IntTag
    case ScaledValue(_) => ScaledTag
    case DoubleValue(_) => DoubleTag
    case MathVariantValue(_) => MathVariantTag
    case ColorValue(_) => ColorTag
    case LengthValue(_) => LengthTag
    case ElementValue(_) => ElementTag
  }

  /** `as<T>(v)`: the stored value when `v` is a non-null `Variant<T>`;
      otherwise (another type, or a null pointer, whose dynamic cast is also
      null) the TypeError exception. */
  function As(t: Tag, v: Option<Value>): (r: Result<Value>)
    ensures r.Ok? <==> v.Some? && TagOf(v.value) == t
    ensures r.Ok? ==> r.value == v.value && TagOf(r.value) == t
  {
    match v
    case None => TypeError
    case Some(x) => if TagOf(x) == t then Ok(x) else TypeError
  }

  lemma AsOfCreated(v: Value)
    ensures As(TagOf(v), Some(v)) == Ok(v)
  {
  }

  lemma AsOfOtherType(t: Tag, v: Value)
    requires TagOf(v) != t
    ensures As(t, Some(v)) == TypeError
  {
  }

  lemma AsOfNull(t: Tag)
    ensures As(t, None) == TypeError
  {
  }
}
