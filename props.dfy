/** Feature property bags as the map script sees them: an ordered list of
    named values, looked up by name, where a missing name reads as
    `undefined` and a value is tested for JavaScript truthiness. */
module Props {

  datatype Option<+T> = None | Some(value: T)

  /** A property value of a GeoJSON feature: tornado counts are numbers,
      `STATE_NAME` is a string. */
  datatype Value = Num(n: int) | Text(s: string)

  /** One named property. */
  datatype Entry = Entry(key: string, value: Value)

  /** A feature's property bag, listed in the order `for ... in` visits it. */
  type Properties = seq<Entry>

  datatype Feature = Feature(props: Properties)

  /** No two entries share a name, as in every JavaScript object. */
  predicate DistinctKeys(props: Properties)
  {
    forall i, j :: 0 <= i < j < |props| ==> props[i].key != props[j].key
  }

  /** True when some entry of `props` is named `key`. */
  ghost predicate HasKey(props: Properties, key: string)
  {
    exists i :: 0 <= i < |props| && props[i].key == key
  }

  /** `props[key]`: the value of the first entry named `key`, or `None`
      (JavaScript's `undefined`) when there is none. */
  function Lookup(props: Properties, key: string): (r: Option<Value>)
    ensures r.None? <==> !HasKey(props, key)
    ensures r.Some? ==> exists i :: 0 <= i < |props| && props[i] == Entry(key, r.value) &&
                          forall j :: 0 <= j < i ==> props[j].key != key
  {
    if |props| == 0 then None
    else if props[0].key == key then Some(props[0].value)
    else
      var r := Lookup(props[1..], key);
      assert forall i :: 1 <= i < |props| ==> props[i] == props[1..][i - 1];
      r
  }

  /** JavaScript truthiness of a looked-up value: `undefined`, `0` and the
      empty string are falsy, everything else is truthy. */
  predicate Truthy(v: Option<Value>)
    ensures Truthy(v) <==> v.Some? && v.value != Num(0) && v.value != Text("")
  {
    match v
    case None => false
    case Some(Num(n)) => n != 0
    case Some(Text(s)) => s != ""
  }
}
