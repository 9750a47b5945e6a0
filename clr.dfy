/** The .NET side of the model: the CLR types the library distinguishes, the
    boxed values it reads and writes, the exceptions it can raise, and the
    property lists that reflection hands it. */
module Clr {
  import opened Wrappers

  /** The primitive types the type table names (each appears plain and nullable). */
  datatype Prim = Int32 | Int64 | Decimal | Double | Single | Bool | DateTime

  /** A CLR type as far as the library can tell types apart: `string`, a primitive
      value type, its `Nullable<>` form, or any other type, identified by its
      full name and whether it is a value type (a struct or enum such as `byte`,
      `char`, `Guid`, `TimeSpan`) or a reference type (a class). */
  datatype ClrType =
    | StringType
    | ValueOf(prim: Prim)
    | NullableOf(underlying: Prim)
    | OtherType(fullName: string, isValueType: bool)

  /** Value types: their default is not null, and a null stored into one of their
      properties becomes that default. */
  predicate IsValueType(t: ClrType) {
    t.ValueOf? || (t.OtherType? && t.isValueType)
  }

  /** A boxed value. `Null` is the C# null reference. Dates are an opaque instant
      (the tick count of a `DateTime`); decimals are exact rationals. */
  datatype Val =
    | Null
    | Str(s: string)
    | BoolVal(b: bool)
    | IntVal(i: int)
    | DecVal(x: real)
    | DateVal(ticks: int)
    | Zero(typeName: string)  // the all-zero default of a value type outside the table (0, '\0', Guid.Empty, ...)

  /** The .NET exceptions the modelled code can raise. */
  datatype Exception =
    | ArgumentNull         // ArgumentNullException
    | ArgumentOutOfRange   // ArgumentOutOfRangeException (List indexer, ElementAt, Enumerable.Range)
    | KeyNotFound          // KeyNotFoundException (Dictionary indexer)
    | DuplicateKey         // ArgumentException from Dictionary.Add / ToDictionary
    | NullReference        // NullReferenceException
    | Format               // FormatException from int.Parse
    | InvalidData          // InvalidDataException
    | Argument             // ArgumentException from DateTime.FromOADate

  /** `default(T)` for a type: null for reference and nullable types, the zero
      value for the primitive value types, and the all-zero value of any other
      value type. */
  function DefaultOf(t: ClrType): (r: Val)
    ensures r == Null <==> !IsValueType(t)
    ensures r != Null ==> RuntimeType(r) == t || (t.ValueOf? && t.prim in {Int64, Double, Single})
  {
    match t
    case ValueOf(p) =>
      (match p
       case Int32 => IntVal(0)
       case Int64 => IntVal(0)
       case Decimal => DecVal(0.0)
       case Double => DecVal(0.0)
       case Single => DecVal(0.0)
       case Bool => BoolVal(false)
       case DateTime => DateVal(0))
    case OtherType(n, isValue) => if isValue then Zero(n) else Null
    case _ => Null
  }

  /** The types whose default is null: `string` and every `Nullable<>`. */
  predicate NullDefaulted(t: ClrType) {
    t == StringType || t.NullableOf?
  }

  lemma NullDefaultedIsNull(t: ClrType)
    requires NullDefaulted(t)
    ensures DefaultOf(t) == Null
  {
  }

  /** The runtime type of a boxed value (`value?.GetType() ?? typeof(string)`, as
      the dynamic property adapter reports it for an ExpandoObject entry). */
  function RuntimeType(v: Val): ClrType {
    match v
    case Null => StringType
    case Str(_) => StringType
    case BoolVal(_) => ValueOf(Bool)
    case IntVal(_) => ValueOf(Int32)
    case DecVal(_) => ValueOf(Decimal)
    case DateVal(_) => ValueOf(DateTime)
    case Zero(n) => OtherType(n, true)
  }

  /** The type an ExpandoObject reports for itself. */
  const ExpandoType: ClrType := OtherType("System.Dynamic.ExpandoObject", false)

  /** A property as reflection lists it: its name, declared type and whether it
      has a setter (`PropertyInfo.CanWrite`). */
  datatype Prop = Prop(name: string, ty: ClrType, canWrite: bool)

  /** A property of a record to be written: name, declared type and current value. */
  datatype Field = Field(name: string, ty: ClrType, value: Val)

  /** A record, as the writer sees it: its properties in declaration order. */
  type Record = seq<Field>

  /** The properties paired with their positions: a position stands for the
      property's `PropertyInfo`. */
  function Indexed(props: seq<Prop>): (r: seq<(nat, Prop)>)
    ensures |r| == |props|
    ensures forall i :: 0 <= i < |props| ==> r[i] == (i, props[i])
  {
    seq(|props|, i requires 0 <= i < |props| => (i, props[i]))
  }

  /** `Convert.ChangeType` (or `ConvertTo`) to a property's type: the converted
      value, or None where the conversion raises. */
  type Coerce = (Val, ClrType) -> Option<Val>

  /** `PropertyInfo.SetValue(target, v)` with the exception swallowed: the value
      the property ends up holding, or None where the call raises and the
      property keeps its value. A property without a setter raises; a null
      stored into a value-type property becomes its default. */
  function SetValue(p: Prop, v: Val): (r: Option<Val>)
    ensures r.Some? <==> p.canWrite
    ensures r.Some? && v == Null ==> r.value == DefaultOf(p.ty)
    ensures r.Some? && v != Null ==> r.value == v
  {
    if !p.canWrite then None
    else if v == Null then Some(DefaultOf(p.ty))
    else Some(v)
  }

  /** `SetValue(target, Convert.ChangeType(v, p.PropertyType))` with any exception
      swallowed: the value the property ends up holding, or None where the
      conversion or the store raises. */
  function ConvertAndSet(coerce: Coerce, v: Val, p: Prop): (r: Option<Val>)
    ensures r.Some? <==> p.canWrite && coerce(v, p.ty).Some?
    ensures r.Some? ==> r.value == SetValue(p, coerce(v, p.ty).value).value
  {
    match coerce(v, p.ty)
    case None => None
    case Some(w) => SetValue(p, w)
  }
}
