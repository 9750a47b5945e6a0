/** `DataMapper`: copies values between objects by matching property names ignoring
    case through a left join. Each property is assigned on its own, and an
    assignment that raises is skipped without affecting the others. The mapper
    keeps a cache of the properties reflection lists for each type. */
module DataMapping {
  import opened Wrappers
  import opened Clr
  import opened TextExtensions
  import opened JoinExtensions
  import opened Expandos

  /** An instance of a reflected type: one value per property of its type, in
      property order. */
  datatype Instance = Instance(ty: ClrType, values: seq<Val>)

  /** A source object: an ExpandoObject (the `IDictionary<string, object>` case)
      or an instance of a reflected type. */
  datatype Obj = Dynamic(entries: Expando) | Typed(inst: Instance)

  /** The value of the property at position `i`, or null for a position the
      instance does not have. */
  function ValueAt(values: seq<Val>, i: nat): Val {
    if i < |values| then values[i] else Null
  }

  /** `ExpandoObject.GetProperties()`: one property per entry, typed by the
      entry's runtime type (`string` for a null value), and always writable. */
  function ExpandoProps(entries: Expando): (r: seq<Prop>)
    ensures |r| == |entries|
    ensures forall i :: 0 <= i < |entries| ==> r[i].name == entries[i].0 && r[i].ty == RuntimeType(entries[i].1) && r[i].canWrite
  {
    seq(|entries|, i requires 0 <= i < |entries| => Prop(entries[i].0, RuntimeType(entries[i].1), true))
  }

  // ---------------------------------------------------------------------------
  // Join, then assign

  /** One result of the left join of the destination properties with a source:
      the destination property, its position, and the matched source item. */
  datatype Joined<S> = Joined(dst: nat, prop: Prop, src: Option<S>)

  /** `dst.Name.ToUpper(CultureInfo.InvariantCulture)`. */
  function DstKey(x: (nat, Prop)): string {
    ToUpper(x.1.name)
  }

  /** The upper-cased key of a source item. */
  function SrcKey<S>(key: S -> string): S -> string {
    (s: S) => ToUpper(key(s))
  }

  function Pair<S>(x: (nat, Prop), s: Option<S>): Joined<S> {
    Joined(x.0, x.1, s)
  }

  /** `dstProperties.LeftJoin(src, dst => upper(dst.Name), s => upper(key(s)),
      (dst, src) => new { dst, src })`. */
  function JoinOn<S(!new)>(props: seq<Prop>, src: seq<S>, key: S -> string): seq<Joined<S>> {
    LeftJoin(Indexed(props), src, DstKey, SrcKey(key), Pair)
  }

  /** The assignment loop over the join results: `eff` gives the value a result
      stores in its property, or None where the result is filtered out or the
      assignment raises and is swallowed. */
  function Store<S>(values: seq<Val>, items: seq<Joined<S>>, eff: Joined<S> -> Option<Val>): (r: seq<Val>)
    ensures |r| == |values|
    decreases |items|
  {
    if items == [] then values
    else
      var it := items[0];
      var next := if it.dst < |values| && eff(it).Some? then values[it.dst := eff(it).value] else values;
      Store(next, items[1..], eff)
  }

  /** The value one property ends with: `v` after every result aimed at
      position `k`, the others ignored. */
  function StoreAt<S>(v: Val, items: seq<Joined<S>>, eff: Joined<S> -> Option<Val>, k: nat): Val
    decreases |items|
  {
    if items == [] then v
    else StoreAt(if items[0].dst == k && eff(items[0]).Some? then eff(items[0]).value else v, items[1..], eff, k)
  }

  /** Each property's final value depends only on the results aimed at it: a
      failed assignment to one property changes nothing elsewhere. */
  lemma {:induction false} StorePointwise<S>(values: seq<Val>, items: seq<Joined<S>>, eff: Joined<S> -> Option<Val>, k: nat)
    requires k < |values|
    ensures Store(values, items, eff)[k] == StoreAt(values[k], items, eff, k)
    decreases |items|
  {
    if items != [] {
      var it := items[0];
      var next := if it.dst < |values| && eff(it).Some? then values[it.dst := eff(it).value] else values;
      StorePointwise(next, items[1..], eff, k);
    }
  }

  lemma {:induction false} StoreAtAppend<S>(v: Val, a: seq<Joined<S>>, b: seq<Joined<S>>, eff: Joined<S> -> Option<Val>, k: nat)
    ensures StoreAt(v, a + b, eff, k) == StoreAt(StoreAt(v, a, eff, k), b, eff, k)
    decreases |a|
  {
    if a != [] {
      assert (a + b)[0] == a[0] && (a + b)[1..] == a[1..] + b;
      StoreAtAppend(if a[0].dst == k && eff(a[0]).Some? then eff(a[0]).value else v, a[1..], b, eff, k);
    } else {
      assert a + b == b;
    }
  }

  lemma {:induction false} StoreAtElsewhere<S>(v: Val, items: seq<Joined<S>>, eff: Joined<S> -> Option<Val>, k: nat)
    requires forall i :: 0 <= i < |items| ==> items[i].dst != k
    ensures StoreAt(v, items, eff, k) == v
    decreases |items|
  {
    if items != [] {
      assert forall i :: 0 <= i < |items[1..]| ==> items[1..][i] == items[i + 1];
      StoreAtElsewhere(v, items[1..], eff, k);
    }
  }

  /** Over the join of the properties from position `m` on, position `k` sees
      exactly its own group of results. */
  lemma {:induction false} StoreAtJoin<S(!new)>(v: Val, props: seq<Prop>, m: nat, src: seq<S>, key: S -> string,
                                                eff: Joined<S> -> Option<Val>, k: nat)
    requires m <= |props|
    ensures m <= k < |props| ==>
              StoreAt(v, LeftJoin(Indexed(props)[m..], src, DstKey, SrcKey(key), Pair), eff, k) ==
              StoreAt(v, Group((k, props[k]), src, DstKey, SrcKey(key), Pair), eff, k)
    ensures !(m <= k < |props|) ==> StoreAt(v, LeftJoin(Indexed(props)[m..], src, DstKey, SrcKey(key), Pair), eff, k) == v
    decreases |props| - m
  {
    if m < |props| {
      var o := (m, props[m]);
      JoinFrom(props, m, src, key);
      var g := Group(o, src, DstKey, SrcKey(key), Pair);
      var rest := LeftJoin(Indexed(props)[m + 1..], src, DstKey, SrcKey(key), Pair);
      StoreAtAppend(v, g, rest, eff, k);
      GroupTargets(o, src, key);
      assert StoreAt(v, g + rest, eff, k) == StoreAt(StoreAt(v, g, eff, k), rest, eff, k);
      if m == k {
        StoreAtJoin(StoreAt(v, g, eff, k), props, m + 1, src, key, eff, k);
        assert StoreAt(StoreAt(v, g, eff, k), rest, eff, k) == StoreAt(v, g, eff, k);
      } else {
        StoreAtElsewhere(v, g, eff, k);
        StoreAtJoin(v, props, m + 1, src, key, eff, k);
        assert StoreAt(v, g + rest, eff, k) == StoreAt(v, rest, eff, k);
      }
    }
  }

  /** The join from position `m` on is position `m`'s group followed by the join
      of the rest. */
  lemma JoinFrom<S(!new)>(props: seq<Prop>, m: nat, src: seq<S>, key: S -> string)
    requires m < |props|
    ensures LeftJoin(Indexed(props)[m..], src, DstKey, SrcKey(key), Pair) ==
              Group((m, props[m]), src, DstKey, SrcKey(key), Pair) + LeftJoin(Indexed(props)[m + 1..], src, DstKey, SrcKey(key), Pair)
  {
    var outer := Indexed(props)[m..];
    assert outer == [(m, props[m])] + Indexed(props)[m + 1..];
    LeftJoinCons((m, props[m]), Indexed(props)[m + 1..], src, DstKey, SrcKey(key), Pair);
  }

  /** Every result in a property's group is aimed at that property. */
  lemma GroupTargets<S(!new)>(o: (nat, Prop), src: seq<S>, key: S -> string)
    ensures forall i :: 0 <= i < |Group(o, src, DstKey, SrcKey(key), Pair)| ==>
              Group(o, src, DstKey, SrcKey(key), Pair)[i].dst == o.0 && Group(o, src, DstKey, SrcKey(key), Pair)[i].prop == o.1
  {
    var mm := Matching(src, SrcKey(key), DstKey(o));
    var g := Group(o, src, DstKey, SrcKey(key), Pair);
    if mm == [] {
      assert g == [Pair(o, None)];
    } else {
      assert forall i :: 0 <= i < |g| ==> g[i] == Pair(o, Some(mm[i]));
    }
  }

  /** After the join-then-assign loop, a property's value is what its own group
      of results leaves it. */
  lemma StoreJoinOn<S(!new)>(values: seq<Val>, props: seq<Prop>, src: seq<S>, key: S -> string,
                             eff: Joined<S> -> Option<Val>, k: nat)
    requires k < |values| && k < |props|
    ensures Store(values, JoinOn(props, src, key), eff)[k] ==
              StoreAt(values[k], Group((k, props[k]), src, DstKey, SrcKey(key), Pair), eff, k)
  {
    StorePointwise(values, JoinOn(props, src, key), eff, k);
    assert Indexed(props)[0..] == Indexed(props);
    StoreAtJoin(values[k], props, 0, src, key, eff, k);
  }

  lemma {:induction false} StoreAtSkipped<S>(v: Val, items: seq<Joined<S>>, eff: Joined<S> -> Option<Val>, k: nat)
    requires forall i :: 0 <= i < |items| ==> eff(items[i]).None?
    ensures StoreAt(v, items, eff, k) == v
    decreases |items|
  {
    if items != [] {
      assert forall i :: 0 <= i < |items[1..]| ==> items[1..][i] == items[i + 1];
      StoreAtSkipped(v, items[1..], eff, k);
    }
  }

  /** A property whose every assignment raises (one without a setter) keeps its
      value, however many source items name it. */
  lemma StoreReadOnly<S(!new)>(values: seq<Val>, props: seq<Prop>, src: seq<S>, key: S -> string,
                               eff: Joined<S> -> Option<Val>, k: nat)
    requires k < |values| && k < |props|
    requires forall it: Joined<S> :: it.prop == props[k] ==> eff(it).None?
    ensures Store(values, JoinOn(props, src, key), eff)[k] == values[k]
  {
    StoreJoinOn(values, props, src, key, eff, k);
    GroupTargets((k, props[k]), src, key);
    StoreAtSkipped(values[k], Group((k, props[k]), src, DstKey, SrcKey(key), Pair), eff, k);
  }

  /** A property that no source item names ends with what the default-paired
      result gives, or keeps its value when that result stores nothing. */
  lemma JoinedStoreUnmatched<S(!new)>(values: seq<Val>, props: seq<Prop>, src: seq<S>, key: S -> string,
                                      eff: Joined<S> -> Option<Val>, k: nat)
    requires k < |values| && k < |props|
    requires forall j :: 0 <= j < |src| ==> ToUpper(key(src[j])) != ToUpper(props[k].name)
    ensures Store(values, JoinOn(props, src, key), eff)[k] == eff(Joined(k, props[k], None)).GetOr(values[k])
  {
    StoreJoinOn(values, props, src, key, eff, k);
    MatchingNone(src, SrcKey(key), DstKey((k, props[k])));
    var g := Group((k, props[k]), src, DstKey, SrcKey(key), Pair);
    assert g == [Joined(k, props[k], None)];
    assert g[1..] == [];
  }

  /** A property that exactly one source item names ends with what that pairing
      gives, or keeps its value when it stores nothing. */
  lemma JoinedStoreMatched<S(!new)>(values: seq<Val>, props: seq<Prop>, src: seq<S>, key: S -> string,
                                    eff: Joined<S> -> Option<Val>, k: nat, j: nat)
    requires k < |values| && k < |props|
    requires j < |src| && ToUpper(key(src[j])) == ToUpper(props[k].name)
    requires forall j' :: 0 <= j' < |src| && j' != j ==> ToUpper(key(src[j'])) != ToUpper(props[k].name)
    ensures Store(values, JoinOn(props, src, key), eff)[k] == eff(Joined(k, props[k], Some(src[j]))).GetOr(values[k])
  {
    StoreJoinOn(values, props, src, key, eff, k);
    MatchingOnly(src, SrcKey(key), DstKey((k, props[k])), j);
    var g := Group((k, props[k]), src, DstKey, SrcKey(key), Pair);
    assert g == [Joined(k, props[k], Some(src[j]))];
    assert g[1..] == [];
  }

  /** The only inner element that carries a key is all that matches it. */
  lemma {:induction false} MatchingOnly<I(!new), K>(inner: seq<I>, ik: I -> K, key: K, j: nat)
    requires j < |inner| && ik(inner[j]) == key
    requires forall j' :: 0 <= j' < |inner| && j' != j ==> ik(inner[j']) != key
    ensures Matching(inner, ik, key) == [inner[j]]
    decreases |inner|
  {
    assert forall i :: 0 <= i < |inner[1..]| ==> inner[1..][i] == inner[i + 1];
    if j == 0 {
      MatchingNone(inner[1..], ik, key);
    } else {
      MatchingOnly(inner[1..], ik, key, j - 1);
    }
  }

  // ---------------------------------------------------------------------------
  // What each mapping stores

  /** `Map<T>` from a dictionary: results without a matching key are filtered
      out; a matched key's value is converted to the property's type and stored. */
  function MapEffect(coerce: Coerce): Joined<(string, Val)> -> Option<Val> {
    (it: Joined<(string, Val)>) => if it.src.None? then None else ConvertAndSet(coerce, it.src.value.1, it.prop)
  }

  function EntryKey(e: (string, Val)): string {
    e.0
  }

  /** The instance `Map<T>` builds from a dictionary's entries. */
  function MapEntries(initial: seq<Val>, props: seq<Prop>, entries: Expando, coerce: Coerce): seq<Val> {
    Store(initial, JoinOn(props, entries, EntryKey), MapEffect(coerce))
  }

  /** `MapNormal<T>`: results without a source property are filtered out, a null
      source value is skipped, a value of the destination's own type is stored as
      it is and any other value is converted first. */
  function NormalEffect(coerce: Coerce, srcValues: seq<Val>): Joined<(nat, Prop)> -> Option<Val> {
    (it: Joined<(nat, Prop)>) =>
      if it.src.None? then None
      else
        var v := ValueAt(srcValues, it.src.value.0);
        if v == Null then None
        else if it.src.value.1.ty == it.prop.ty then SetValue(it.prop, v)
        else ConvertAndSet(coerce, v, it.prop)
  }

  function PropName(x: (nat, Prop)): string {
    x.1.name
  }

  /** The instance `MapNormal<T>` builds from a source instance. */
  function MapNormalValues(initial: seq<Val>, props: seq<Prop>, srcProps: seq<Prop>, srcValues: seq<Val>, coerce: Coerce): seq<Val> {
    Store(initial, JoinOn(props, Indexed(srcProps), PropName), NormalEffect(coerce, srcValues))
  }

  /** `FillWith`: a destination property with no source partner is filtered out
      under `skipNull` and otherwise set to null, which reflection stores as the
      type's default; a matched one takes the converted source value. */
  function FillEffect(coerce: Coerce, srcValues: seq<Val>, skipNull: bool): Joined<(nat, Prop)> -> Option<Val> {
    (it: Joined<(nat, Prop)>) =>
      if it.src.None? then (if skipNull then None else SetValue(it.prop, Null))
      else ConvertAndSet(coerce, ValueAt(srcValues, it.src.value.0), it.prop)
  }

  /** The destination's values after `FillWith`. */
  function FillValues(dstValues: seq<Val>, props: seq<Prop>, srcProps: seq<Prop>, srcValues: seq<Val>, skipNull: bool, coerce: Coerce): seq<Val> {
    Store(dstValues, JoinOn(props, Indexed(srcProps), PropName), FillEffect(coerce, srcValues, skipNull))
  }

  // ---------------------------------------------------------------------------
  // The mapper

  class DataMapper {
    /** `_typesProperties`: the properties listed so far, per type. */
    var typesProperties: map<ClrType, seq<Prop>>
    /** `GetPropertiesWithColumnName`: a type's properties as reflection lists them. */
    const reflect: ClrType -> seq<Prop>
    /** `Activator.CreateInstance<T>()`: the values of a new instance. */
    const create: ClrType -> seq<Val>
    const coerce: Coerce

    /** The cache never disagrees with reflection. */
    predicate Valid()
      reads this
    {
      forall t :: t in typesProperties ==> typesProperties[t] == reflect(t)
    }

    constructor (reflect: ClrType -> seq<Prop>, create: ClrType -> seq<Val>, coerce: Coerce)
      ensures Valid()
      ensures typesProperties == map[]
      ensures this.reflect == reflect && this.create == create && this.coerce == coerce
    {
      typesProperties := map[];
      this.reflect := reflect;
      this.create := create;
      this.coerce := coerce;
    }

    /** `GetCachedProperties(Type)`: a null type raises; a cached type's entry is
        returned as it is; any other type is listed and cached. */
    method GetCachedProperties(t: Option<ClrType>) returns (r: Result<seq<Prop>, Exception>)
      requires Valid()
      modifies this
      ensures Valid()
      ensures t.None? ==> r == Err(ArgumentNull) && typesProperties == old(typesProperties)
      ensures t.Some? && t.value in old(typesProperties) ==>
                r == Ok(old(typesProperties)[t.value]) && typesProperties == old(typesProperties)
      ensures t.Some? ==> r == Ok(reflect(t.value)) && typesProperties == old(typesProperties)[t.value := reflect(t.value)]
    {
      if t.None? {
        return Err(ArgumentNull);
      }
      if t.value in typesProperties {
        return Ok(typesProperties[t.value]);
      }
      typesProperties := typesProperties[t.value := reflect(t.value)];
      return Ok(typesProperties[t.value]);
    }

    /** `GetCachedProperties(object)`: a null object raises; an ExpandoObject's
        entries are listed without touching the cache; any other object goes
        through its type's cache entry. */
    method GetCachedObjectProperties(obj: Option<Obj>) returns (r: Result<seq<Prop>, Exception>)
      requires Valid()
      modifies this
      ensures Valid()
      ensures obj.None? ==> r == Err(ArgumentNull) && typesProperties == old(typesProperties)
      ensures obj.Some? && obj.value.Dynamic? ==>
                r == Ok(ExpandoProps(obj.value.entries)) && typesProperties == old(typesProperties)
      ensures obj.Some? && obj.value.Typed? ==>
                var t := obj.value.inst.ty;
                r == Ok(reflect(t)) && typesProperties == old(typesProperties)[t := reflect(t)]
    {
      if obj.None? {
        return Err(ArgumentNull);
      }
      match obj.value
      case Dynamic(entries) =>
        return Ok(ExpandoProps(entries));
      case Typed(inst) =>
        r := GetCachedProperties(Some(inst.ty));
    }

    /** The assignment loop shared by the three mappings: each join result stores
        what `eff` gives into its property, or is skipped. */
    method AssignAll<S>(initial: seq<Val>, joined: seq<Joined<S>>, eff: Joined<S> -> Option<Val>) returns (d: seq<Val>)
      ensures d == Store(initial, joined, eff)
    {
      d := initial;
      var i := 0;
      while i < |joined|
        invariant 0 <= i <= |joined|
        invariant Store(initial, joined, eff) == Store(d, joined[i..], eff)
      {
        assert joined[i..][0] == joined[i] && joined[i..][1..] == joined[i + 1..];
        var item := joined[i];
        var value := eff(item);
        if value.Some? && item.dst < |d| {
          d := d[item.dst := value.value];
        }
        i := i + 1;
      }
      assert joined[i..] == [];
    }

    /** `Map<T>(object)`: null maps to null; a dictionary is mapped key by key; any
        other object through `MapNormal<T>`. */
    method Map(source: Option<Obj>, t: ClrType) returns (r: Option<Instance>)
      requires Valid()
      modifies this
      ensures Valid()
      ensures source.None? ==> r.None? && typesProperties == old(typesProperties)
      ensures source.Some? && source.value.Dynamic? ==>
                r == Some(Instance(t, MapEntries(create(t), reflect(t), source.value.entries, coerce))) &&
                typesProperties == old(typesProperties)[t := reflect(t)]
      ensures source.Some? && source.value.Typed? ==>
                var src := source.value.inst;
                r == Some(Instance(t, MapNormalValues(create(t), reflect(t), reflect(src.ty), src.values, coerce))) &&
                typesProperties == old(typesProperties)[src.ty := reflect(src.ty)][t := reflect(t)]
    {
      if source.None? {
        return None;
      }
      match source.value
      case Typed(inst) =>
        var d := MapNormal(inst, t);
        return Some(d);
      case Dynamic(entries) =>
        var props := GetCachedProperties(Some(t));
        var joined := JoinOn(props.value, entries, EntryKey);
        var values := AssignAll(create(t), joined, MapEffect(coerce));
        return Some(Instance(t, values));
    }

    /** `MapNormal<T>`: the source's properties, then T's, go through the cache;
        matched properties are copied or converted. */
    method MapNormal(source: Instance, t: ClrType) returns (r: Instance)
      requires Valid()
      modifies this
      ensures Valid()
      ensures r == Instance(t, MapNormalValues(create(t), reflect(t), reflect(source.ty), source.values, coerce))
      ensures typesProperties == old(typesProperties)[source.ty := reflect(source.ty)][t := reflect(t)]
    {
      var srcProps := GetCachedProperties(Some(source.ty));
      var dstProps := GetCachedProperties(Some(t));
      var joined := JoinOn(dstProps.value, Indexed(srcProps.value), PropName);
      var values := AssignAll(create(t), joined, NormalEffect(coerce, source.values));
      return Instance(t, values);
    }

    /** `FillWith`: nothing happens when either side is null; otherwise both types
        are cached and the destination's properties are assigned from the
        source's. */
    method FillWith(destination: Option<Instance>, source: Option<Instance>, skipNull: bool) returns (r: Option<Instance>)
      requires Valid()
      modifies this
      ensures Valid()
      ensures source.None? || destination.None? ==> r == destination && typesProperties == old(typesProperties)
      ensures source.Some? && destination.Some? ==>
                var dst := destination.value;
                var src := source.value;
                r == Some(Instance(dst.ty, FillValues(dst.values, reflect(dst.ty), reflect(src.ty), src.values, skipNull, coerce))) &&
                typesProperties == old(typesProperties)[src.ty := reflect(src.ty)][dst.ty := reflect(dst.ty)]
    {
      if source.None? || destination.None? {
        return destination;
      }
      var srcProps := GetCachedProperties(Some(source.value.ty));
      var dstProps := GetCachedProperties(Some(destination.value.ty));
      var joined := JoinOn(dstProps.value, Indexed(srcProps.value), PropName);
      var values := AssignAll(destination.value.values, joined, FillEffect(coerce, source.value.values, skipNull));
      return Some(Instance(destination.value.ty, values));
    }
  }

  // ---------------------------------------------------------------------------
  // Properties of the mappings

  /** `Map<T>` from a dictionary: a property no key names (ignoring case) keeps
      its constructor value; a property exactly one key names takes that key's
      converted value, or keeps its constructor value when the conversion or the
      store fails. A property without a setter always keeps its value. Keys that
      name no property are never read. */
  lemma MapEntriesSpec(initial: seq<Val>, props: seq<Prop>, entries: Expando, coerce: Coerce, k: nat)
    requires k < |initial| && k < |props|
    ensures (forall j :: 0 <= j < |entries| ==> ToUpper(entries[j].0) != ToUpper(props[k].name)) ==>
              MapEntries(initial, props, entries, coerce)[k] == initial[k]
    ensures forall j :: 0 <= j < |entries| && ToUpper(entries[j].0) == ToUpper(props[k].name) &&
                        (forall j' :: 0 <= j' < |entries| && j' != j ==> ToUpper(entries[j'].0) != ToUpper(props[k].name)) ==>
              MapEntries(initial, props, entries, coerce)[k] == ConvertAndSet(coerce, entries[j].1, props[k]).GetOr(initial[k])
    ensures !props[k].canWrite ==> MapEntries(initial, props, entries, coerce)[k] == initial[k]
  {
    if !props[k].canWrite {
      StoreReadOnly(initial, props, entries, EntryKey, MapEffect(coerce), k);
    }
    if forall j :: 0 <= j < |entries| ==> ToUpper(entries[j].0) != ToUpper(props[k].name) {
      JoinedStoreUnmatched(initial, props, entries, EntryKey, MapEffect(coerce), k);
    }
    forall j | 0 <= j < |entries| && ToUpper(entries[j].0) == ToUpper(props[k].name) &&
               (forall j' :: 0 <= j' < |entries| && j' != j ==> ToUpper(entries[j'].0) != ToUpper(props[k].name))
    {
      JoinedStoreMatched(initial, props, entries, EntryKey, MapEffect(coerce), k, j);
    }
  }

  /** `MapNormal<T>`: a property no source property names keeps its constructor
      value; one that exactly one source property names keeps it too when the
      source value is null, takes the value itself when both properties have the
      same type, and its conversion otherwise (when the conversion succeeds). A
      property without a setter always keeps its value. */
  lemma MapNormalSpec(initial: seq<Val>, props: seq<Prop>, srcProps: seq<Prop>, srcValues: seq<Val>, coerce: Coerce, k: nat)
    requires k < |initial| && k < |props|
    ensures (forall j :: 0 <= j < |srcProps| ==> ToUpper(srcProps[j].name) != ToUpper(props[k].name)) ==>
              MapNormalValues(initial, props, srcProps, srcValues, coerce)[k] == initial[k]
    ensures forall j :: 0 <= j < |srcProps| && ToUpper(srcProps[j].name) == ToUpper(props[k].name) &&
                        (forall j' :: 0 <= j' < |srcProps| && j' != j ==> ToUpper(srcProps[j'].name) != ToUpper(props[k].name)) ==>
              MapNormalValues(initial, props, srcProps, srcValues, coerce)[k] ==
                (var v := ValueAt(srcValues, j);
                 if v == Null || !props[k].canWrite then initial[k]
                 else if srcProps[j].ty == props[k].ty then v
                 else ConvertAndSet(coerce, v, props[k]).GetOr(initial[k]))
    ensures !props[k].canWrite ==> MapNormalValues(initial, props, srcProps, srcValues, coerce)[k] == initial[k]
  {
    var isrc := Indexed(srcProps);
    if !props[k].canWrite {
      StoreReadOnly(initial, props, isrc, PropName, NormalEffect(coerce, srcValues), k);
    }
    assert forall j :: 0 <= j < |srcProps| ==> PropName(isrc[j]) == srcProps[j].name && isrc[j] == (j, srcProps[j]);
    if forall j :: 0 <= j < |srcProps| ==> ToUpper(srcProps[j].name) != ToUpper(props[k].name) {
      JoinedStoreUnmatched(initial, props, isrc, PropName, NormalEffect(coerce, srcValues), k);
    }
    forall j | 0 <= j < |srcProps| && ToUpper(srcProps[j].name) == ToUpper(props[k].name) &&
               (forall j' :: 0 <= j' < |srcProps| && j' != j ==> ToUpper(srcProps[j'].name) != ToUpper(props[k].name))
    {
      JoinedStoreMatched(initial, props, isrc, PropName, NormalEffect(coerce, srcValues), k, j);
    }
  }

  /** `FillWith`: a destination property no source property names is left as it
      is under `skipNull` and reset to its type's default otherwise; one that
      exactly one source property names takes the converted value, or is left as
      it is when the conversion or the store fails. A property without a setter
      is always left as it is. */
  lemma FillValuesSpec(dstValues: seq<Val>, props: seq<Prop>, srcProps: seq<Prop>, srcValues: seq<Val>, skipNull: bool, coerce: Coerce, k: nat)
    requires k < |dstValues| && k < |props|
    ensures (forall j :: 0 <= j < |srcProps| ==> ToUpper(srcProps[j].name) != ToUpper(props[k].name)) ==>
              FillValues(dstValues, props, srcProps, srcValues, skipNull, coerce)[k] ==
                (if skipNull || !props[k].canWrite then dstValues[k] else DefaultOf(props[k].ty))
    ensures forall j :: 0 <= j < |srcProps| && ToUpper(srcProps[j].name) == ToUpper(props[k].name) &&
                        (forall j' :: 0 <= j' < |srcProps| && j' != j ==> ToUpper(srcProps[j'].name) != ToUpper(props[k].name)) ==>
              FillValues(dstValues, props, srcProps, srcValues, skipNull, coerce)[k] ==
                ConvertAndSet(coerce, ValueAt(srcValues, j), props[k]).GetOr(dstValues[k])
    ensures !props[k].canWrite ==> FillValues(dstValues, props, srcProps, srcValues, skipNull, coerce)[k] == dstValues[k]
  {
    var isrc := Indexed(srcProps);
    if !props[k].canWrite {
      StoreReadOnly(dstValues, props, isrc, PropName, FillEffect(coerce, srcValues, skipNull), k);
    }
    assert forall j :: 0 <= j < |srcProps| ==> PropName(isrc[j]) == srcProps[j].name && isrc[j] == (j, srcProps[j]);
    if forall j :: 0 <= j < |srcProps| ==> ToUpper(srcProps[j].name) != ToUpper(props[k].name) {
      JoinedStoreUnmatched(dstValues, props, isrc, PropName, FillEffect(coerce, srcValues, skipNull), k);
    }
    forall j | 0 <= j < |srcProps| && ToUpper(srcProps[j].name) == ToUpper(props[k].name) &&
               (forall j' :: 0 <= j' < |srcProps| && j' != j ==> ToUpper(srcProps[j'].name) != ToUpper(props[k].name))
    {
      JoinedStoreMatched(dstValues, props, isrc, PropName, FillEffect(coerce, srcValues, skipNull), k, j);
    }
  }
}
