/** `processData` (js/main.js): the list of year attributes, taken from the
    property names of the first point feature that contain "YR", in the
    order the property bag lists them. */
module Attributes {
  import opened Props

  const YearMarker: string := "YR"

  /** `pat` occurs in `s` starting at position `i`. */
  predicate OccursAt(s: string, pat: string, i: int)
  {
    0 <= i && i + |pat| <= |s| && s[i..i + |pat|] == pat
  }

  /** `pat` is a substring of `s`. */
  ghost predicate Contains(s: string, pat: string)
  {
    exists i :: OccursAt(s, pat, i)
  }

  /** `s.indexOf(pat)`: the first position where `pat` occurs in `s`, or -1. */
  function IndexOf(s: string, pat: string): (r: int)
    ensures r == -1 || OccursAt(s, pat, r)
    ensures r == -1 <==> !Contains(s, pat)
    ensures forall j :: 0 <= j < r ==> !OccursAt(s, pat, j)
  {
    if |s| < |pat| then
      assert forall i :: !OccursAt(s, pat, i);
      -1
    else if s[..|pat|] == pat then
      assert OccursAt(s, pat, 0);
      0
    else
      var r := IndexOf(s[1..], pat);
      assert forall i :: 1 <= i ==> (OccursAt(s, pat, i) <==> OccursAt(s[1..], pat, i - 1)) by {
        forall i | 1 <= i ensures OccursAt(s, pat, i) <==> OccursAt(s[1..], pat, i - 1) {
          OccursShift(s, pat, i);
        }
      }
      assert !OccursAt(s, pat, 0);
      if r == -1 then
        -1
      else
        assert OccursAt(s, pat, r + 1);
        r + 1
  }

  /** An occurrence at position `i` of `s` is one at `i - 1` of its tail. */
  lemma OccursShift(s: string, pat: string, i: int)
    requires |s| >= 1 && i >= 1
    ensures OccursAt(s, pat, i) <==> OccursAt(s[1..], pat, i - 1)
  {
    if i + |pat| <= |s| {
      var a, b := s[1..][i - 1..i - 1 + |pat|], s[i..i + |pat|];
      assert |a| == |b|;
      forall k | 0 <= k < |pat| ensures a[k] == b[k] {
        assert a[k] == s[i + k];
      }
      assert a == b;
    }
  }

  /** The names in `props` containing "YR", in order: the specification of
      `processData`, written over the last entry so that it follows the
      loop's prefixes. */
  ghost function YearAttributes(props: Properties): (r: seq<string>)
  {
    if |props| == 0 then []
    else
      var last := props[|props| - 1];
      YearAttributes(props[..|props| - 1]) + (if Contains(last.key, YearMarker) then [last.key] else [])
  }

  /** `processData(response)`: reads the property bag of the first feature
      only. With no features at all the script throws reading
      `response.features[0].properties`; that is the `None` result. */
  method ProcessData(features: seq<Feature>) returns (r: Option<seq<string>>)
    requires forall f :: f in features ==> DistinctKeys(f.props)
    ensures r.None? <==> |features| == 0
    ensures r.Some? ==> r.value == YearAttributes(features[0].props)
    ensures r.Some? ==> forall i, j :: 0 <= i < j < |r.value| ==> r.value[i] != r.value[j]
  {
    if |features| == 0 {
      return None;
    }
    var attributes: seq<string> := [];
    var values := features[0].props;
    for k := 0 to |values|
      invariant attributes == YearAttributes(values[..k])
    {
      assert values[..k + 1][..k] == values[..k];
      if IndexOf(values[k].key, YearMarker) > -1 {
        attributes := attributes + [values[k].key];
      }
    }
    assert values[..|values|] == values;
    YearAttributesDistinct(values);
    return Some(attributes);
  }

  /** Every extracted name contains "YR" and names an entry of the bag;
      every entry whose name contains "YR" is extracted. */
  lemma {:induction false} YearAttributesMembers(props: Properties, name: string)
    ensures name in YearAttributes(props) <==>
            Contains(name, YearMarker) && exists i :: 0 <= i < |props| && props[i].key == name
  {
    if |props| > 0 {
      var init := props[..|props| - 1];
      YearAttributesMembers(init, name);
      if exists i :: 0 <= i < |props| && props[i].key == name {
        var i :| 0 <= i < |props| && props[i].key == name;
        if i < |props| - 1 {
          assert init[i].key == name;
        }
      }
      if exists i :: 0 <= i < |init| && init[i].key == name {
        var i :| 0 <= i < |init| && init[i].key == name;
        assert props[i].key == name;
      }
    }
  }

  /** Extraction respects concatenation of bags: the order of the bag is the
      order of the result. */
  lemma {:induction false} YearAttributesAppend(a: Properties, b: Properties)
    ensures YearAttributes(a + b) == YearAttributes(a) + YearAttributes(b)
  {
    if |b| == 0 {
      assert a + b == a;
    } else {
      var b' := b[..|b| - 1];
      assert (a + b)[..|a + b| - 1] == a + b';
      YearAttributesAppend(a, b');
    }
  }

  /** A single entry contributes its name exactly when the name contains "YR". */
  lemma YearAttributesSingle(e: Entry)
    ensures YearAttributes([e]) == if Contains(e.key, YearMarker) then [e.key] else []
  {
    assert [e][..0] == [];
  }

  /** The result is empty exactly when no name in the bag contains "YR". */
  lemma YearAttributesEmpty(props: Properties)
    ensures YearAttributes(props) == [] <==>
            forall i :: 0 <= i < |props| ==> !Contains(props[i].key, YearMarker)
  {
    if YearAttributes(props) == [] {
      forall i | 0 <= i < |props| ensures !Contains(props[i].key, YearMarker) {
        YearAttributesMembers(props, props[i].key);
      }
    } else {
      var name := YearAttributes(props)[0];
      YearAttributesMembers(props, name);
    }
  }

  /** The result never has more names than the bag has entries. */
  lemma {:induction false} YearAttributesLength(props: Properties)
    ensures |YearAttributes(props)| <= |props|
  {
    if |props| > 0 {
      YearAttributesLength(props[..|props| - 1]);
    }
  }

  /** A bag without repeated names yields each year attribute once. */
  lemma {:induction false} YearAttributesDistinct(props: Properties)
    requires DistinctKeys(props)
    ensures forall i, j :: 0 <= i < j < |YearAttributes(props)| ==>
              YearAttributes(props)[i] != YearAttributes(props)[j]
  {
    if |props| > 0 {
      var init := props[..|props| - 1];
      var last := props[|props| - 1];
      YearAttributesDistinct(init);
      forall i | 0 <= i < |init| ensures init[i].key != last.key {
        assert init[i] == props[i];
      }
      YearAttributesMembers(init, last.key);
      assert last.key !in YearAttributes(init);
    }
  }
}
