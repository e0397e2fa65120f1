/** Layered configuration: merging sources and looking up dotted paths. */
module ConfigMerge {

  /**
   * A configuration value; `Scalar` stands for strings, numbers and booleans, `Object` for everything that has
   * fields and is not an array.
   */
  datatype Value =
    | Undefined
    | Null
    | Scalar(n: int)
    | Array(items: seq<Value>)
    | Object(fields: map<string, Value>)

  type Path = seq<string>

  // ----- Merging -----

  function Merge(base: map<string, Value>, overrides: map<string, Value>): map<string, Value>
    decreases Object(overrides), 0
  {
    map k | k in base.Keys + overrides.Keys ::
      if k !in overrides then base[k]
      else MergeField(if k in base then base[k] else Undefined, overrides, k)
  }

  function MergeField(baseVal: Value, overrides: map<string, Value>, k: string): Value
    requires k in overrides
    decreases overrides[k], 1
  {
    if baseVal.Object? && overrides[k].Object? then Object(Merge(baseVal.fields, overrides[k].fields)) else overrides[k]
  }

  /** `deepMerge`: copies `base`, then goes through the keys of `overrides` in any order. */
  method DeepMerge(base: map<string, Value>, overrides: map<string, Value>) returns (result: map<string, Value>)
    ensures result == Merge(base, overrides)
    decreases Object(overrides)
  {
    result := base;
    var keys := overrides.Keys;
    while keys != {}
      invariant keys <= overrides.Keys
      invariant result.Keys == base.Keys + (overrides.Keys - keys)
      invariant forall k :: k in result ==>
                              result[k] == if k in overrides && k !in keys then Merge(base, overrides)[k] else base[k]
      decreases keys
    {
      var key :| key in keys;
      var overVal := overrides[key];
      if overVal.Object? && key in result && result[key].Object? {
        var merged := DeepMerge(result[key].fields, overVal.fields);
        result := result[key := Object(merged)];
      } else {
        result := result[key := overVal];
      }
      keys := keys - {key};
    }
  }

  /** A source is loaded on its own; loading may fail. */
  datatype Load = Loaded(value: Value) | LoadFailed(message: string)

  datatype Source = Source(name: string, load: Load)

  datatype MergeResult = Merged(fields: map<string, Value>) | SourceFailed(name: string, message: string)

  /** All sources in order; values that are not plain objects are passed over. */
  function MergeAll(values: seq<Value>): map<string, Value> {
    if values == [] then map[]
    else
      var before := MergeAll(values[..|values| - 1]);
      var last := values[|values| - 1];
      if last.Object? then Merge(before, last.fields) else before
  }

  function LoadedValues(sources: seq<Source>): seq<Value>
    requires forall s :: s in sources ==> s.load.Loaded?
  {
    seq(|sources|, i requires 0 <= i < |sources| => sources[i].load.value)
  }

  /** `mergeConfigs`: the first source that fails to load is reported by name. */
  method MergeConfigs(sources: seq<Source>) returns (r: MergeResult)
    ensures r.Merged? <==> forall s :: s in sources ==> s.load.Loaded?
    ensures r.Merged? ==> r.fields == MergeAll(LoadedValues(sources))
    ensures r.SourceFailed? ==>
              exists i :: 0 <= i < |sources| && sources[i] == Source(r.name, LoadFailed(r.message)) &&
                          forall j :: 0 <= j < i ==> sources[j].load.Loaded?
  {
    var merged: map<string, Value> := map[];
    for i := 0 to |sources|
      invariant forall s :: s in sources[..i] ==> s.load.Loaded?
      invariant merged == MergeAll(LoadedValues(sources[..i]))
    {
      assert sources[..i + 1] == sources[..i] + [sources[i]];
      match sources[i].load
      case LoadFailed(message) =>
        assert sources[i] in sources;
        return SourceFailed(sources[i].name, message);
      case Loaded(values) =>
        assert LoadedValues(sources[..i + 1])[..i] == LoadedValues(sources[..i]);
        if values.Object? {
          merged := DeepMerge(merged, values.fields);
        }
    }
    assert sources[..|sources|] == sources;
    r := Merged(merged);
  }

  // ----- Looking up -----

  /** Reading a property of an array by name; what arrays answer is left open. */
  type ArrayProperty = (seq<Value>, string) -> Value

  function Property(v: Value, segment: string, arrays: ArrayProperty): Value {
    if v.Object? then (if segment in v.fields then v.fields[segment] else Undefined)
    else if v.Array? then arrays(v.items, segment)
    else Undefined
  }

  /** The value at a path, `Undefined` if the path leads nowhere. */
  function Lookup(v: Value, path: Path, arrays: ArrayProperty): Value
    decreases |path|
  {
    if path == [] then v
    else if v.Object? || v.Array? then Lookup(Property(v, path[0], arrays), path[1..], arrays)
    else Undefined
  }

  /** `path.split('.')`. */
  function SplitDots(path: string): (segments: Path)
    ensures segments != [] && forall i :: 0 <= i < |segments| ==> '.' !in segments[i]
  {
    if path == "" then [""]
    else
      var rest := SplitDots(path[1..]);
      if path[0] == '.' then [""] + rest else [[path[0]] + rest[0]] + rest[1..]
  }

  function JoinDots(segments: Path): string
    requires segments != []
  {
    if |segments| == 1 then segments[0] else segments[0] + "." + JoinDots(segments[1..])
  }

  lemma Regroup(c: char, s: string, t: string)
    ensures ([c] + s) + "." + t == [c] + (s + "." + t)
  {
    assert ([c] + s) + "." == [c] + (s + ".");
  }

  lemma JoinMore(segments: Path)
    requires |segments| > 1
    ensures JoinDots(segments) == segments[0] + "." + JoinDots(segments[1..])
  {
  }

  lemma JoinLonger(c: char, segments: Path)
    requires segments != []
    ensures JoinDots([[c] + segments[0]] + segments[1..]) == [c] + JoinDots(segments)
  {
    hide JoinDots;
    var longer := [[c] + segments[0]] + segments[1..];
    assert longer[1..] == segments[1..];
    if |segments| > 1 {
      JoinMore(longer);
      JoinMore(segments);
      Regroup(c, segments[0], JoinDots(segments[1..]));
    } else {
      JoinOne(segments[0]);
      JoinOne(longer[0]);
      assert segments == [segments[0]] && longer == [longer[0]];
    }
  }

  lemma JoinEmpty(segments: Path)
    requires segments != []
    ensures JoinDots([""] + segments) == "." + JoinDots(segments)
  {
    assert ([""] + segments)[1..] == segments;
  }

  /** Splitting loses nothing. */
  lemma {:induction false} JoinAfterSplit(path: string)
    ensures JoinDots(SplitDots(path)) == path
  {
    hide JoinDots;
    if path != "" {
      JoinAfterSplit(path[1..]);
      var rest := SplitDots(path[1..]);
      assert path == [path[0]] + path[1..];
      if path[0] == '.' {
        JoinEmpty(rest);
      } else {
        JoinLonger(path[0], rest);
      }
    } else {
      JoinOne("");
    }
  }

  lemma JoinOne(segment: string)
    ensures JoinDots([segment]) == segment
  {
  }

  /** Every list of segments without dots is the splitting of some path, namely of its join. */
  lemma {:induction false} SplitAfterJoin(segments: Path)
    requires segments != [] && forall i :: 0 <= i < |segments| ==> '.' !in segments[i]
    ensures SplitDots(JoinDots(segments)) == segments
    decreases |segments|, |segments[0]|
  {
    var first, rest := segments[0], segments[1..];
    var path := JoinDots(segments);
    if first != "" {
      var shorter := [first[1..]] + rest;
      assert shorter[1..] == rest;
      SplitAfterJoin(shorter);
      assert first == [first[0]] + first[1..];
      assert path == [first[0]] + JoinDots(shorter);
      assert path[0] != '.' && path[1..] == JoinDots(shorter);
    } else if rest != [] {
      SplitAfterJoin(rest);
      assert path == "." + JoinDots(rest) && path[1..] == JoinDots(rest);
    } else {
      assert segments == [""];
    }
  }

  /** `BootConfigService.get`. */
  method Get(options: Value, path: string, arrays: ArrayProperty) returns (current: Value)
    ensures current == Lookup(options, SplitDots(path), arrays)
  {
    var segments := SplitDots(path);
    current := options;
    for i := 0 to |segments|
      invariant Lookup(options, segments, arrays) == Lookup(current, segments[i..], arrays)
    {
      if !(current.Object? || current.Array?) {
        return Undefined;
      }
      current := Property(current, segments[i], arrays);
      assert segments[i..][1..] == segments[i + 1..];
    }
  }

  // ----- What a lookup finds -----

  /** Looking up a path is looking up its rest in what its first part finds. */
  lemma {:induction false} LookupInTwoSteps(v: Value, p: Path, q: Path, arrays: ArrayProperty)
    ensures Lookup(v, p + q, arrays) == Lookup(Lookup(v, p, arrays), q, arrays)
    decreases |p|
  {
    if p == [] {
      assert p + q == q;
    } else {
      assert (p + q)[0] == p[0] && (p + q)[1..] == p[1..] + q;
      if v.Object? || v.Array? {
        LookupInTwoSteps(Property(v, p[0], arrays), p[1..], q, arrays);
      } else if q != [] {
        assert Lookup(Undefined, q, arrays) == Undefined;
      }
    }
  }

  /** `v` below these segments and nothing else. */
  function Nest(v: Value, segments: Path): Value {
    if segments == [] then v else Object(map[segments[0] := Nest(v, segments[1..])])
  }

  /** Round trip: whatever is nested below dot-free segments is what the joined path finds. */
  lemma {:induction false} NestedIsFound(v: Value, segments: Path, arrays: ArrayProperty)
    requires segments != [] && forall i :: 0 <= i < |segments| ==> '.' !in segments[i]
    ensures Lookup(Nest(v, segments), SplitDots(JoinDots(segments)), arrays) == v
  {
    SplitAfterJoin(segments);
    LookupNested(v, segments, arrays);
  }

  lemma {:induction false} LookupNested(v: Value, segments: Path, arrays: ArrayProperty)
    ensures Lookup(Nest(v, segments), segments, arrays) == v
  {
    if segments != [] {
      LookupNested(v, segments[1..], arrays);
    }
  }

  /** One segment further: an array answers itself, and what has no such field leads nowhere. */
  lemma LookupBelow(v: Value, segments: Path, k: string, arrays: ArrayProperty)
    ensures var r := Lookup(Nest(v, segments), segments + [k], arrays);
            && (v.Array? ==> r == arrays(v.items, k))
            && (v.Object? && k in v.fields ==> r == v.fields[k])
            && (!v.Array? && !(v.Object? && k in v.fields) ==> r == Undefined)
  {
    LookupNested(v, segments, arrays);
    LookupInTwoSteps(Nest(v, segments), segments, [k], arrays);
    assert [k][1..] == [];
  }

  /** `v` with `x` at the path; what is in the way of the path and not an object is replaced by one. */
  function Put(v: Value, path: Path, x: Value): Value
    decreases |path|
  {
    if path == [] then x
    else
      var fields := if v.Object? then v.fields else map[];
      var below := if path[0] in fields then fields[path[0]] else Undefined;
      Object(fields[path[0] := Put(below, path[1..], x)])
  }

  lemma {:induction false} PutIsFound(v: Value, path: Path, x: Value, arrays: ArrayProperty)
    ensures Lookup(Put(v, path, x), path, arrays) == x
    decreases |path|
  {
    if path != [] {
      var below := if v.Object? && path[0] in v.fields then v.fields[path[0]] else Undefined;
      PutIsFound(below, path[1..], x, arrays);
    }
  }

  predicate Unrelated(p: Path, q: Path) {
    exists n :: 0 <= n < |p| && n < |q| && p[n] != q[n]
  }

  /** The paths part at their first segment, or below a common one. */
  lemma UnrelatedDeeper(p: Path, q: Path)
    requires Unrelated(p, q) && p[0] == q[0]
    ensures Unrelated(p[1..], q[1..])
  {
    var n :| 0 <= n < |p| && n < |q| && p[n] != q[n];
    assert p[1..][n - 1] != q[1..][n - 1];
  }

  /** What is put at one path does not show at an unrelated one, unless it replaces an array there. */
  lemma {:induction false} PutElsewhere(v: Value, path: Path, x: Value, other: Path, arrays: ArrayProperty)
    requires Unrelated(path, other) && !v.Array? && forall n :: !ArrayAt(v, other, n)
    ensures Lookup(Put(v, path, x), other, arrays) == Lookup(v, other, arrays)
    decreases |path|
  {
    var k, below := path[0], if v.Object? && path[0] in v.fields then v.fields[path[0]] else Undefined;
    if k == other[0] {
      UnrelatedDeeper(path, other);
      if v.Object? && k in v.fields {
        assert v == Object(v.fields);
        OneDeeper(v.fields, other, 1);
        assert !ArrayAt(v, other, 1);
        assert ValueAt(v.fields[k], other[1..][..0]) == v.fields[k];
        forall n
          ensures !ArrayAt(below, other[1..], n)
        {
          if 0 < n < |other[1..]| {
            OneDeeper(v.fields, other, n + 1);
            assert !ArrayAt(v, other, n + 1);
          }
        }
      }
      PutElsewhere(below, path[1..], x, other[1..], arrays);
    } else if other != [] && !(v.Object? && other[0] in v.fields) {
      assert Lookup(Undefined, other[1..], arrays) == Undefined;
    }
  }

  /** Where no proper prefix holds an array, a lookup goes through objects only. */
  lemma {:induction false} LookupIsValueAt(v: Value, path: Path, arrays: ArrayProperty)
    requires (v.Array? ==> path == []) && forall n :: !ArrayAt(v, path, n)
    ensures Lookup(v, path, arrays) == ValueAt(v, path)
    decreases |path|
  {
    if path != [] && v.Object? {
      var k := path[0];
      if k in v.fields {
        assert v == Object(v.fields);
        OneDeeper(v.fields, path, 1);
        assert !ArrayAt(v, path, 1);
        assert ValueAt(v.fields[k], path[1..][..0]) == v.fields[k];
        forall n
          ensures !ArrayAt(v.fields[k], path[1..], n)
        {
          if 0 < n < |path[1..]| {
            OneDeeper(v.fields, path, n + 1);
            assert !ArrayAt(v, path, n + 1);
          }
        }
        LookupIsValueAt(v.fields[k], path[1..], arrays);
      } else {
        assert Lookup(Undefined, path[1..], arrays) == Undefined;
      }
    }
  }

  // ----- Which source decides -----

  /** The source has a value at the path itself, or something other than an object at a proper prefix. */
  predicate Decides(fields: map<string, Value>, path: Path)
    requires path != []
    decreases |path|
  {
    path[0] in fields &&
    (|path| == 1 || !fields[path[0]].Object? || Decides(fields[path[0]].fields, path[1..]))
  }

  predicate DecidesPath(v: Value, path: Path)
    requires path != []
  {
    v.Object? && Decides(v.fields, path)
  }

  /** The position of the last source that decides the path, -1 if none does. */
  function LastDecider(values: seq<Value>, path: Path): (i: int)
    requires path != []
    ensures -1 <= i < |values| && (i >= 0 ==> DecidesPath(values[i], path))
    ensures forall j :: i < j < |values| ==> !DecidesPath(values[j], path)
  {
    if values == [] then -1
    else if DecidesPath(values[|values| - 1], path) then |values| - 1
    else LastDecider(values[..|values| - 1], path)
  }

  /** What the last source that decides the path has there; `Undefined` if none decides it. */
  function LastWord(values: seq<Value>, path: Path, arrays: ArrayProperty): Value
    requires path != []
  {
    var i := LastDecider(values, path);
    if i < 0 then Undefined else Lookup(values[i], path, arrays)
  }

  /** The same leaf, or both objects. */
  predicate SameLeaf(a: Value, b: Value) {
    if b.Object? then a.Object? else a == b
  }

  /** The value at a path that leads through objects only. */
  function ValueAt(v: Value, path: Path): Value
    decreases |path|
  {
    if path == [] then v
    else if v.Object? && path[0] in v.fields then ValueAt(v.fields[path[0]], path[1..])
    else Undefined
  }

  predicate ArrayAt(v: Value, path: Path, n: int) {
    0 < n < |path| && ValueAt(v, path[..n]).Array?
  }

  predicate ObjectAt(v: Value, path: Path, n: int) {
    0 < n < |path| && ValueAt(v, path[..n]).Object?
  }

  /** At a proper prefix of the path, `base` has an array and `over` an object. */
  ghost predicate Clash(base: Value, over: Value, path: Path) {
    exists n :: ArrayAt(base, path, n) && ObjectAt(over, path, n)
  }

  /** Some source after the last decider has an object at the prefix where that decider has its array. */
  ghost predicate Covered(values: seq<Value>, path: Path)
    requires path != []
  {
    var i := LastDecider(values, path);
    i >= 0 && exists j :: i < j < |values| && Clash(values[i], values[j], path)
  }

  lemma {:induction false} UndecidedIsUndefined(fields: map<string, Value>, path: Path, arrays: ArrayProperty)
    requires path != [] && !Decides(fields, path)
    ensures Lookup(Object(fields), path, arrays) == Undefined
    decreases |path|
  {
    if path[0] in fields {
      UndecidedIsUndefined(fields[path[0]].fields, path[1..], arrays);
      assert Object(fields[path[0]].fields) == fields[path[0]];
    } else {
      assert |path| > 1 ==> Lookup(Undefined, path[1..], arrays) == Undefined;
    }
  }

  /** Prefixes of a path and of what follows its first segment. */
  lemma OneDeeper(fields: map<string, Value>, path: Path, n: int)
    requires 0 < n <= |path| && path[0] in fields
    ensures ValueAt(Object(fields), path[..n]) == ValueAt(fields[path[0]], path[1..][..n - 1])
    ensures n > 1 ==> (ArrayAt(Object(fields), path, n) <==> ArrayAt(fields[path[0]], path[1..], n - 1))
    ensures n > 1 ==> (ObjectAt(Object(fields), path, n) <==> ObjectAt(fields[path[0]], path[1..], n - 1))
  {
    assert path[..n][1..] == path[1..][..n - 1];
  }

  /** A clash is at the first segment or below it. */
  lemma ClashDeeper(base: map<string, Value>, over: map<string, Value>, path: Path)
    requires |path| > 1 && path[0] in over && over[path[0]].Object?
    ensures Clash(Object(base), Object(over), path) <==>
            path[0] in base && (base[path[0]].Array? || Clash(base[path[0]], over[path[0]], path[1..]))
  {
    var b, o, k := Object(base), Object(over), path[0];
    if k in base {
      OneDeeper(base, path, 1);
      OneDeeper(over, path, 1);
      if n :| ArrayAt(b, path, n) && ObjectAt(o, path, n) {
        if n > 1 {
          OneDeeper(base, path, n);
          OneDeeper(over, path, n);
          assert ArrayAt(base[k], path[1..], n - 1) && ObjectAt(over[k], path[1..], n - 1);
        }
      }
      if base[k].Array? {
        assert ArrayAt(b, path, 1) && ObjectAt(o, path, 1);
      }
      if n :| ArrayAt(base[k], path[1..], n) && ObjectAt(over[k], path[1..], n) {
        OneDeeper(base, path, n + 1);
        OneDeeper(over, path, n + 1);
        assert ArrayAt(b, path, n + 1) && ObjectAt(o, path, n + 1);
      }
    }
  }

  /**
   * One merge: at a path the override decides, it wins; where it covers an array of the base with an object there is
   * nothing any more; elsewhere the base shows through unchanged.
   */
  lemma {:induction false} MergeLookup(base: map<string, Value>, over: map<string, Value>, path: Path,
                                       arrays: ArrayProperty)
    requires path != []
    ensures var r := Lookup(Object(Merge(base, over)), path, arrays);
            if Decides(over, path) then SameLeaf(r, Lookup(Object(over), path, arrays))
            else if Clash(Object(base), Object(over), path) then r == Undefined
            else r == Lookup(Object(base), path, arrays)
    decreases |path|
  {
    var k, rest, m := path[0], path[1..], Merge(base, over);
    if k in over {
      var b := if k in base then base[k] else Undefined;
      assert m[k] == MergeField(b, over, k);
      if over[k].Object? && rest != [] {
        var f := over[k].fields;
        assert over[k] == Object(f);
        ClashDeeper(base, over, path);
        if b.Object? {
          assert b == Object(b.fields);
          MergeLookup(b.fields, f, rest, arrays);
        } else if !Decides(f, rest) {
          UndecidedIsUndefined(f, rest, arrays);
        }
      }
    } else {
      assert !Clash(Object(base), Object(over), path) by {
        forall n
          ensures !ObjectAt(Object(over), path, n)
        {
          NothingAt(over, path, n);
        }
      }
      if k in base {
        assert m[k] == base[k];
      }
    }
  }

  lemma NothingAt(fields: map<string, Value>, path: Path, n: int)
    requires path != [] && path[0] !in fields
    ensures !ArrayAt(Object(fields), path, n) && !ObjectAt(Object(fields), path, n)
  {
    if 0 < n < |path| {
      assert path[..n][0] == path[0];
    }
  }

  /** Only an object leads any further. */
  lemma NothingBelow(v: Value, path: Path, n: int)
    requires !v.Object?
    ensures !ArrayAt(v, path, n) && !ObjectAt(v, path, n)
  {
  }

  /** Where the merge has arrays: where a deciding override has them, or the base has them and is not covered. */
  lemma {:induction false} MergeArrays(base: map<string, Value>, over: map<string, Value>, path: Path, n: int)
    requires path != []
    ensures ArrayAt(Object(Merge(base, over)), path, n) <==>
            if Decides(over, path) then ArrayAt(Object(over), path, n)
            else ArrayAt(Object(base), path, n) && !ObjectAt(Object(over), path, n)
    decreases |path|
  {
    if 0 < n < |path| {
      var k, m := path[0], Merge(base, over);
      if k !in over {
        NothingAt(over, path, n);
        if k in base {
          OneDeeper(base, path, n);
          OneDeeper(m, path, n);
          assert m[k] == base[k];
        } else {
          NothingAt(base, path, n);
          NothingAt(m, path, n);
        }
      } else {
        var b := if k in base then base[k] else Undefined;
        assert m[k] == MergeField(b, over, k);
        OneDeeper(m, path, n);
        OneDeeper(over, path, n);
        if k in base {
          OneDeeper(base, path, n);
        } else {
          NothingAt(base, path, n);
        }
        if n > 1 {
          if b.Object? && over[k].Object? {
            assert b == Object(b.fields) && over[k] == Object(over[k].fields);
            MergeArrays(b.fields, over[k].fields, path[1..], n - 1);
          } else if !b.Object? {
            NothingBelow(b, path[1..], n - 1);
            if over[k].Object? && !Decides(over, path) {
              UndecidedHasNoArray(over[k], path[1..], n - 1);
            }
          }
        }
      }
    }
  }

  lemma {:induction false} UndecidedHasNoArray(v: Value, path: Path, n: int)
    requires path != [] && !DecidesPath(v, path)
    ensures !ArrayAt(v, path, n)
    decreases |path|
  {
    if 0 < n < |path| && v.Object? {
      if path[0] in v.fields {
        assert v == Object(v.fields);
        OneDeeper(v.fields, path, n);
        if n > 1 {
          UndecidedHasNoArray(v.fields[path[0]], path[1..], n - 1);
        }
      } else {
        NothingAt(v.fields, path, n);
      }
    }
  }

  /** What a further source does to the last decider and to its being covered. */
  lemma OneMoreSource(values: seq<Value>, v: Value, path: Path)
    requires path != []
    ensures var all := values + [v];
            && LastDecider(all, path) == (if DecidesPath(v, path) then |values| else LastDecider(values, path))
            && (Covered(all, path) <==>
                  && !DecidesPath(v, path)
                  && (Covered(values, path) ||
                      (LastDecider(values, path) >= 0 && Clash(values[LastDecider(values, path)], v, path))))
  {
    var all := values + [v];
    assert all[..|values|] == values;
    if !DecidesPath(v, path) {
      var i := LastDecider(values, path);
      if i >= 0 {
        assert forall j :: i < j < |values| ==> all[j] == values[j];
        assert all[|values|] == v;
      }
    }
  }

  /** Where the merged configuration has arrays: where the last decider has them, unless they have been covered. */
  lemma {:induction false} MergedArrays(values: seq<Value>, path: Path, n: int)
    requires path != []
    ensures ArrayAt(Object(MergeAll(values)), path, n) ==>
              LastDecider(values, path) >= 0 && ArrayAt(values[LastDecider(values, path)], path, n)
    ensures (LastDecider(values, path) >= 0 && ArrayAt(values[LastDecider(values, path)], path, n) &&
             !Covered(values, path))
            ==> ArrayAt(Object(MergeAll(values)), path, n)
  {
    if values == [] {
      if path != [] { NothingAt(map[], path, n); }
    } else {
      var front, v := values[..|values| - 1], values[|values| - 1];
      assert values == front + [v];
      MergedArrays(front, path, n);
      OneMoreSource(front, v, path);
      if v.Object? {
        MergeArrays(MergeAll(front), v.fields, path, n);
        assert v == Object(v.fields);
      } else {
        NothingBelow(v, path, n);
      }
    }
  }

  /**
   * The merged configuration clashes with a further source exactly as the last decider does, unless covered already.
   */
  lemma MergedClash(values: seq<Value>, v: Value, path: Path)
    requires path != [] && !Covered(values, path)
    ensures var i := LastDecider(values, path);
            Clash(Object(MergeAll(values)), v, path) <==> i >= 0 && Clash(values[i], v, path)
  {
    forall n
      ensures ArrayAt(Object(MergeAll(values)), path, n) <==>
              LastDecider(values, path) >= 0 && ArrayAt(values[LastDecider(values, path)], path, n)
    {
      MergedArrays(values, path, n);
    }
  }

  /**
   * Last decider wins: looking a path up in the merged configuration gives what the last source that decides the path
   * has there, for any list of sources and any path, except that a covered array leaves nothing.
   */
  lemma {:induction false} LastDeciderWins(values: seq<Value>, path: Path, arrays: ArrayProperty)
    requires path != []
    ensures var r := Lookup(Object(MergeAll(values)), path, arrays);
            if Covered(values, path) then r == Undefined else SameLeaf(r, LastWord(values, path, arrays))
  {
    if values == [] {
      UndecidedIsUndefined(map[], path, arrays);
    } else {
      var front, v := values[..|values| - 1], values[|values| - 1];
      assert values == front + [v];
      LastDeciderWins(front, path, arrays);
      OneMoreSource(front, v, path);
      if v.Object? {
        assert v == Object(v.fields);
        MergeLookup(MergeAll(front), v.fields, path, arrays);
        if !Covered(front, path) {
          MergedClash(front, v, path);
        }
      } else {
        var i := LastDecider(front, path);
        assert !Clash(if i >= 0 then front[i] else Undefined, v, path) by {
          forall n
            ensures !ObjectAt(v, path, n)
          {
            NothingBelow(v, path, n);
          }
        }
      }
    }
  }

  /** Below an array something may be found, whatever the rest of the path. */
  lemma {:induction false} ArraysAnswer(v: Value, path: Path, n: int)
    requires ArrayAt(v, path, n)
    ensures Lookup(v, path, (_, _) => Array([])) == Array([])
    decreases |path|
  {
    if n == 1 {
      assert path[..1] == [path[0]] && path[..1][1..] == [];
      assert ValueAt(v, path[..1]) == v.fields[path[0]];
      EmptyArrays(v.fields[path[0]], path[1..]);
    } else {
      assert path[..n][1..] == path[1..][..n - 1] && path[..n][0] == path[0];
      ArraysAnswer(v.fields[path[0]], path[1..], n - 1);
    }
  }

  lemma {:induction false} EmptyArrays(v: Value, path: Path)
    requires v.Array? && (path != [] || v == Array([]))
    ensures Lookup(v, path, (_, _) => Array([])) == Array([])
    decreases |path|
  {
    if path != [] {
      EmptyArrays(Array([]), path[1..]);
    }
  }

  /**
   * The rule holds, whatever arrays answer to property names, if and only if no source after the last decider has an
   * object at the prefix where that decider has its array.
   */
  lemma RuleHoldsIffNotCovered(values: seq<Value>, path: Path)
    requires path != []
    ensures (forall arrays: ArrayProperty ::
               SameLeaf(Lookup(Object(MergeAll(values)), path, arrays), LastWord(values, path, arrays)))
            <==> !Covered(values, path)
  {
    forall arrays: ArrayProperty
      ensures var r := Lookup(Object(MergeAll(values)), path, arrays);
              if Covered(values, path) then r == Undefined else SameLeaf(r, LastWord(values, path, arrays))
    {
      LastDeciderWins(values, path, arrays);
    }
    if Covered(values, path) {
      var i := LastDecider(values, path);
      var j :| i < j < |values| && Clash(values[i], values[j], path);
      var n :| ArrayAt(values[i], path, n) && ObjectAt(values[j], path, n);
      ArraysAnswer(values[i], path, n);
      var arrays: ArrayProperty := (_, _) => Array([]);
      assert LastWord(values, path, arrays) == Array([]);
      assert !SameLeaf(Lookup(Object(MergeAll(values)), path, arrays), LastWord(values, path, arrays));
    }
  }

  /**
   * Such sources exist: an empty object under the key that held an array covers it, although it does not decide the
   * path.
   */
  lemma EmptyObjectCovers(key: string, items: seq<Value>, rest: Path)
    requires rest != []
    ensures Covered([Object(map[key := Array(items)]), Object(map[key := Object(map[])])], [key] + rest)
  {
    var first, second := Object(map[key := Array(items)]), Object(map[key := Object(map[])]);
    var values, path := [first, second], [key] + rest;
    assert path[0] == key && path[1..] == rest && path[..1] == [key] && path[..1][1..] == [];
    assert second.fields[key] == Object(map[]) && !Decides(map[], rest);
    assert !DecidesPath(second, path) && DecidesPath(first, path);
    assert values[..1] == [first];
    assert LastDecider([first], path) == 0 && LastDecider(values, path) == 0;
    assert ArrayAt(first, path, 1) && ObjectAt(second, path, 1);
    assert Clash(values[0], values[1], path);
  }

  // ----- Laws of merging -----

  lemma {:induction false} MergeIsIdempotent(m: map<string, Value>)
    ensures Merge(m, m) == m
    decreases Object(m)
  {
    forall k | k in m
      ensures Merge(m, m)[k] == m[k]
    {
      assert Merge(m, m)[k] == MergeField(m[k], m, k);
      if m[k].Object? {
        MergeIsIdempotent(m[k].fields);
        assert Object(m[k].fields) == m[k];
      }
    }
  }

  lemma EmptyIsIdentity(m: map<string, Value>)
    ensures Merge(map[], m) == m && Merge(m, map[]) == m
  {
    forall k | k in m
      ensures Merge(map[], m)[k] == m[k]
    {
      assert Merge(map[], m)[k] == MergeField(Undefined, m, k);
    }
  }

  /**
   * Nowhere does the middle one put something other than an object between two objects, unless the last one replaces
   * all of the first anyway.
   */
  predicate Regroups(a: map<string, Value>, b: map<string, Value>, c: map<string, Value>)
    decreases Object(a)
  {
    forall k :: k in a && k in b && k in c && a[k].Object? && c[k].Object? ==>
                  if b[k].Object? then Regroups(a[k].fields, b[k].fields, c[k].fields)
                  else Merge(a[k].fields, c[k].fields) == c[k].fields
  }

  /** Grouping the sources differently gives the same configuration exactly under that condition. */
  lemma {:induction false} GroupingMatters(a: map<string, Value>, b: map<string, Value>, c: map<string, Value>)
    ensures Merge(Merge(a, b), c) == Merge(a, Merge(b, c)) <==> Regroups(a, b, c)
    decreases Object(a)
  {
    hide Merge;
    var l, r := Merge(Merge(a, b), c), Merge(a, Merge(b, c));
    GroupingKeys(a, b, c);
    forall k | k in l
      ensures l[k] == r[k] <==>
              (k in a && k in b && k in c && a[k].Object? && c[k].Object? ==>
                 if b[k].Object? then Regroups(a[k].fields, b[k].fields, c[k].fields)
                 else Merge(a[k].fields, c[k].fields) == c[k].fields)
    {
      GroupingAt(a, b, c, k);
      if k in a && k in b && k in c && a[k].Object? && b[k].Object? && c[k].Object? {
        GroupingMatters(a[k].fields, b[k].fields, c[k].fields);
      }
    }
    assert l == r <==> forall k :: k in l ==> l[k] == r[k];
  }

  lemma GroupingKeys(a: map<string, Value>, b: map<string, Value>, c: map<string, Value>)
    ensures Merge(Merge(a, b), c).Keys == a.Keys + b.Keys + c.Keys == Merge(a, Merge(b, c)).Keys
  {
  }

  /** The same for the value of one key. */
  lemma GroupingAt(a: map<string, Value>, b: map<string, Value>, c: map<string, Value>, k: string)
    requires k in a || k in b || k in c
    ensures var l, r := Merge(Merge(a, b), c)[k], Merge(a, Merge(b, c))[k];
            if k in a && k in b && k in c && a[k].Object? && c[k].Object? then
              if b[k].Object? then
                && l == Object(Merge(Merge(a[k].fields, b[k].fields), c[k].fields))
                && r == Object(Merge(a[k].fields, Merge(b[k].fields, c[k].fields)))
              else l == c[k] && r == Object(Merge(a[k].fields, c[k].fields))
            else l == r
  {
    FieldOf(a, b, k);
    FieldOf(b, c, k);
    FieldOf(Merge(a, b), c, k);
    FieldOf(a, Merge(b, c), k);
    hide Merge;
  }

  /** One field of a merge, without recursion. */
  lemma FieldOf(base: map<string, Value>, over: map<string, Value>, k: string)
    ensures k in Merge(base, over) <==> k in base || k in over
    ensures k in base && k !in over ==> Merge(base, over)[k] == base[k]
    ensures k in over ==>
              Merge(base, over)[k] ==
              if k in base && base[k].Object? && over[k].Object? then Object(Merge(base[k].fields, over[k].fields))
              else over[k]
  {
    if k in over {
      assert Merge(base, over)[k] == MergeField(if k in base then base[k] else Undefined, over, k);
    }
  }
}
