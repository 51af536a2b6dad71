/**
  `convert_to_serializable`: numpy scalars and arrays become their Python
  counterparts, dicts and lists are converted element by element, and
  everything else is returned as it is.
 */
module Serialization {
  import opened Wrappers

  /**
    The values a result dict can hold. `Other` is an object with an
    `item()` method: `item` is what it returns, or None when it raises,
    and `text` is its `str()`. Dict keys are strings, kept in insertion order.
   */
  datatype Value =
    | Null
    | Bool(b: bool)
    | Int(i: int)
    | Float(f: real)
    | Str(s: string)
    | List(items: seq<Value>)
    | Tuple(elements: seq<Value>)
    | Dict(entries: seq<Entry>)
    | NpInt(ni: int)
    | NpFloat(nf: real)
    | NpBool(nb: bool)
    | NdArray(cells: seq<Value>)
    | Other(item: Option<Value>, text: string)

  datatype Entry = Entry(key: string, value: Value)

  predicate IsNumpy(v: Value) {
    v.NpInt? || v.NpFloat? || v.NpBool? || v.NdArray?
  }

  /** `ndarray.tolist()`: numpy scalars to Python scalars, nested arrays to nested lists. */
  function ToList(v: Value): (r: Value)
    ensures v.NdArray? ==> r.List? && |r.items| == |v.cells|
    ensures !IsNumpy(r)
  {
    match v
    case NpInt(i) => Int(i)
    case NpFloat(f) => Float(f)
    case NpBool(b) => Bool(b)
    case NdArray(cells) => List(seq(|cells|, k requires 0 <= k < |cells| => ToList(cells[k])))
    case _ => v
  }

  function Convert(v: Value): (r: Value)
    ensures v.NpInt? ==> r == Int(v.ni)
    ensures v.NpFloat? ==> r == Float(v.nf)
    ensures v.NpBool? ==> r == Bool(v.nb)
    ensures v.NdArray? ==> r == ToList(v)
    ensures v.List? ==>
      r.List? && |r.items| == |v.items| && forall k :: 0 <= k < |v.items| ==> r.items[k] == Convert(v.items[k])
    ensures v.Dict? ==>
      r.Dict? && |r.entries| == |v.entries| && forall k :: 0 <= k < |v.entries| ==>
        r.entries[k].key == v.entries[k].key && r.entries[k].value == Convert(v.entries[k].value)
    ensures v.Other? ==> r == if v.item.Some? then v.item.value else Str(v.text)
    ensures v.Null? || v.Bool? || v.Int? || v.Float? || v.Str? || v.Tuple? ==> r == v
  {
    match v
    case NpInt(i) => Int(i)
    case NpFloat(f) => Float(f)
    case NpBool(b) => Bool(b)
    case NdArray(_) => ToList(v)
    case Dict(entries) =>
      Dict(seq(|entries|, k requires 0 <= k < |entries| => Entry(entries[k].key, Convert(entries[k].value))))
    case List(items) => List(seq(|items|, k requires 0 <= k < |items| => Convert(items[k])))
    case Other(item, text) => if item.Some? then item.value else Str(text)
    case _ => v
  }

  /** What `json.dumps` accepts: Python scalars, strings, and lists, tuples and dicts of those. */
  predicate Serializable(v: Value) {
    match v
    case Null => true
    case Bool(_) => true
    case Int(_) => true
    case Float(_) => true
    case Str(_) => true
    case List(items) => forall k :: 0 <= k < |items| ==> Serializable(items[k])
    case Tuple(elements) => forall k :: 0 <= k < |elements| ==> Serializable(elements[k])
    case Dict(entries) => forall k :: 0 <= k < |entries| ==> Serializable(entries[k].value)
    case _ => false
  }

  /**
    The inputs the conversion can make serializable: every `item()` that
    succeeds returns a serializable value, and no tuple holds anything
    else, since tuples are not looked into.
   */
  predicate Convertible(v: Value) {
    match v
    case List(items) => forall k :: 0 <= k < |items| ==> Convertible(items[k])
    case Tuple(_) => Serializable(v)
    case Dict(entries) => forall k :: 0 <= k < |entries| ==> Convertible(entries[k].value)
    case NdArray(cells) => forall k :: 0 <= k < |cells| ==> NumericCell(cells[k])
    case Other(item, _) => item.Some? ==> Serializable(item.value)
    case _ => true
  }

  /** An array cell: a numpy scalar or a nested array of them. */
  predicate NumericCell(v: Value) {
    match v
    case NpInt(_) => true
    case NpFloat(_) => true
    case NpBool(_) => true
    case NdArray(cells) => forall k :: 0 <= k < |cells| ==> NumericCell(cells[k])
    case _ => false
  }

  lemma {:induction false} ToListIsSerializable(v: Value)
    requires NumericCell(v)
    ensures Serializable(ToList(v))
    decreases v
  {
    if v.NdArray? {
      forall k | 0 <= k < |v.cells|
        ensures Serializable(ToList(v).items[k])
      {
        ToListIsSerializable(v.cells[k]);
      }
    }
  }

  /** On convertible input the result is serializable. */
  lemma {:induction false} ConvertIsSerializable(v: Value)
    requires Convertible(v)
    ensures Serializable(Convert(v))
    decreases v
  {
    match v
    case List(items) =>
      forall k | 0 <= k < |items|
        ensures Serializable(Convert(v).items[k])
      {
        ConvertIsSerializable(items[k]);
      }
    case Dict(entries) =>
      forall k | 0 <= k < |entries|
        ensures Serializable(Convert(v).entries[k].value)
      {
        ConvertIsSerializable(entries[k].value);
      }
    case NdArray(cells) =>
      ToListIsSerializable(v);
    case _ =>
  }

  /** Already serializable values come back unchanged. */
  lemma {:induction false} ConvertKeepsSerializable(v: Value)
    requires Serializable(v)
    ensures Convert(v) == v
    decreases v
  {
    match v
    case List(items) =>
      forall k | 0 <= k < |items|
        ensures Convert(items[k]) == items[k]
      {
        ConvertKeepsSerializable(items[k]);
      }
      assert Convert(v).items == items;
    case Dict(entries) =>
      forall k | 0 <= k < |entries|
        ensures Convert(entries[k].value) == entries[k].value
      {
        ConvertKeepsSerializable(entries[k].value);
      }
      assert Convert(v).entries == entries;
    case _ =>
  }

  /** On convertible input, a second conversion changes nothing. */
  lemma ConvertIdempotent(v: Value)
    requires Convertible(v)
    ensures Convert(Convert(v)) == Convert(v)
  {
    ConvertIsSerializable(v);
    ConvertKeepsSerializable(Convert(v));
  }

  /** A tuple is not looked into, so a numpy value inside one survives. */
  lemma TupleKeepsNumpy()
    ensures Convert(Tuple([NpInt(1)])) == Tuple([NpInt(1)])
    ensures !Serializable(Convert(Tuple([NpInt(1)])))
  {
    assert !Serializable(Tuple([NpInt(1)]).elements[0]);
  }
}
