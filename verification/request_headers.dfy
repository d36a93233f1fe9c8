/** The multi-valued header container used by the mock: a map from header name
    to the ordered sequence of its values, with merge-on-add. The Java builder
    and the built object share one map; here both are the same immutable value. */
module RequestHeaders {
  import opened Wrappers

  type Headers = map<string, seq<string>>

  /** The shared empty instance: no header constraints. */
  const Empty: Headers := map[]

  /** The values stored under `name`, or none when the name is absent. */
  function Fetch(h: Headers, name: string): (r: Option<seq<string>>)
    ensures r.Some? <==> name in h
    ensures r.Some? ==> r.value == h[name]
  {
    if name in h then Some(h[name]) else None
  }

  /** The number of values stored under `name`; 0 for an absent name. */
  function SizeOf(h: Headers, name: string): (r: nat)
    ensures name !in h ==> r == 0
    ensures Fetch(h, name).Some? ==> r == |Fetch(h, name).value|
  {
    if name in h then |h[name]| else 0
  }

  /** The number of distinct header names. */
  function Size(h: Headers): (r: nat)
    ensures r == |h.Keys|
  {
    |h|
  }

  /** The values of `name` as a (possibly empty) sequence. */
  function ValuesOf(h: Headers, name: string): seq<string>
  {
    if name in h then h[name] else []
  }

  /** Builder.add(name, value): append to an existing name, or create a singleton. */
  function Add(h: Headers, name: string, value: string): (r: Headers)
    ensures r.Keys == h.Keys + {name}
    ensures Fetch(r, name) == Some(ValuesOf(h, name) + [value])
    ensures SizeOf(r, name) == SizeOf(h, name) + 1
    ensures forall n :: n in h && n != name ==> r[n] == h[n]
  {
    if name in h then h[name := h[name] + [value]]
    else assert [] + [value] == [value]; h[name := [value]]
  }

  /** Builder.add(name, values): append all values in order to an existing name,
      or store the given sequence itself when the name is new (even if empty). */
  function AddAll(h: Headers, name: string, values: seq<string>): (r: Headers)
    ensures r.Keys == h.Keys + {name}
    ensures Fetch(r, name) == Some(ValuesOf(h, name) + values)
    ensures SizeOf(r, name) == SizeOf(h, name) + |values|
    ensures forall n :: n in h && n != name ==> r[n] == h[n]
  {
    if name in h then h[name := h[name] + values]
    else assert [] + values == values; h[name := values]
  }

  /** RequestHeaders.equals against another object: `other` is None when that
      object is null or of another class; otherwise maps are compared deeply. */
  function Equals(h: Headers, other: Option<Headers>): (r: bool)
    ensures r <==> other.Some? && forall n :: Fetch(h, n) == Fetch(other.value, n)
  {
    if other.None? then false
    else
      var o := other.value;
      if h == o then true
      else
        assert exists n :: Fetch(h, n) != Fetch(o, n) by {
          if h.Keys == o.Keys {
            var n :| n in h && h[n] != o[n];
            assert Fetch(h, n) != Fetch(o, n);
          } else if k :| k in h && k !in o {
            assert Fetch(h, k) != Fetch(o, k);
          } else {
            var k :| k in o && k !in h;
            assert Fetch(h, k) != Fetch(o, k);
          }
        }
        false
  }

  /** `order` lists every header name exactly once: the map's iteration order. */
  predicate IsEnumeration(order: seq<string>, h: Headers)
  {
    && |order| == |h|
    && (forall i :: 0 <= i < |order| ==> order[i] in h)
    && (forall i, j :: 0 <= i < j < |order| ==> order[i] != order[j])
  }

  /** Collection.toString of a value sequence: "[a, b]". */
  function ValuesText(values: seq<string>): string
  {
    "[" + Join(values, ", ") + "]"
  }

  /** The pieces separated by `sep`. */
  function Join(parts: seq<string>, sep: string): (r: string)
    ensures |parts| == 0 ==> r == ""
    ensures |parts| > 0 ==> |r| >= |parts[0]|
  {
    if |parts| == 0 then ""
    else if |parts| == 1 then parts[0]
    else parts[0] + sep + Join(parts[1..], sep)
  }

  /** Map.Entry.toString of every header, in iteration order: "name=[a, b]". */
  function EntryTexts(h: Headers, order: seq<string>): (r: seq<string>)
    requires forall i :: 0 <= i < |order| ==> order[i] in h
    ensures |r| == |order|
    ensures forall i :: 0 <= i < |r| ==> |r[i]| >= 3
  {
    if |order| == 0 then []
    else [order[0] + "=" + ValuesText(h[order[0]])] + EntryTexts(h, order[1..])
  }

  /** RequestHeaders.toString: the entries joined by ", ", or "no" when there are none.
      The HashMap iteration order is the parameter `order`. */
  function ToString(h: Headers, order: seq<string>): (r: string)
    requires IsEnumeration(order, h)
    ensures r == "no" <==> |h| == 0
  {
    var s := Join(EntryTexts(h, order), ", ");
    if |s| > 0 then s else "no"
  }

  /** Adding one value is adding the one-element sequence holding it. */
  lemma AddIsAddAllSingleton(h: Headers, name: string, value: string)
    ensures Add(h, name, value) == AddAll(h, name, [value])
  {
  }

  /** Add applied to each value in turn. */
  function AddEach(h: Headers, name: string, values: seq<string>): (r: Headers)
    decreases |values|
  {
    if |values| == 0 then h
    else AddEach(Add(h, name, values[0]), name, values[1..])
  }

  /** Merge-on-add: adding a collection equals adding its values one by one,
      except that a new name given an empty collection is still stored. */
  lemma {:induction false} AddAllIsRepeatedAdd(h: Headers, name: string, values: seq<string>)
    requires name in h || |values| > 0
    ensures AddAll(h, name, values) == AddEach(h, name, values)
    decreases |values|
  {
    if |values| == 0 {
      assert h[name] + values == h[name];
      assert h[name := h[name]] == h;
    } else {
      var h1 := Add(h, name, values[0]);
      AddAllIsRepeatedAdd(h1, name, values[1..]);
      var x := ValuesOf(h, name);
      assert h1 == h[name := x + [values[0]]];
      assert x + [values[0]] + values[1..] == x + values;
      calc {
        AddAll(h1, name, values[1..]);
        h1[name := x + [values[0]] + values[1..]];
        h[name := x + values];
        AddAll(h, name, values);
      }
    }
  }

  /** Adding grows the name count only when the name is new. */
  lemma AddSize(h: Headers, name: string, values: seq<string>)
    ensures Size(AddAll(h, name, values)) == Size(h) + (if name in h then 0 else 1)
  {
    var r := AddAll(h, name, values);
    if name in h {
      assert r.Keys == h.Keys;
    } else {
      assert r.Keys == h.Keys + {name};
    }
  }

  /** Header equality is reflexive and symmetric. */
  lemma EqualsIsEquivalence(a: Headers, b: Headers)
    ensures Equals(a, Some(a))
    ensures Equals(a, Some(b)) <==> Equals(b, Some(a))
    ensures Equals(a, Some(b)) <==> a == b
  {
    if Equals(a, Some(b)) {
      assert a.Keys == b.Keys by {
        forall n | n in a ensures n in b { assert Fetch(a, n) == Fetch(b, n); }
        forall n | n in b ensures n in a { assert Fetch(a, n) == Fetch(b, n); }
      }
      forall n | n in a ensures a[n] == b[n] { assert Fetch(a, n) == Fetch(b, n); }
    }
  }
}
