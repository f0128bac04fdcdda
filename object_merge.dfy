/**
 * mergeObject of ui/main.js: merges `src` into `dst` key by key. The keys
 * are those `for (let key in src)` visits: an object's own keys, the
 * indexes "0", "1", ... of an array or a string, and none of a number, a
 * boolean or null. A value `src[key]` for which
 * `typeof v == "object" && !Array.isArray(v)` holds (an object, or null)
 * is merged recursively into dst[key], which is first replaced by {}
 * unless it already passes the same test; every other value overwrites
 * dst[key]. Reading or writing a property of a null dst throws TypeError.
 */
module ObjectMerge {
  import opened Wrappers
  import opened Json

  type Obj = map<string, Json>

  datatype JsError = TypeError

  /** `typeof v == "object" && !Array.isArray(v)`: true of objects and of null. */
  predicate IsObjectLike(v: Json)
  {
    v.JObj? || v.JNull?
  }

  // ------------------------------------------------------- for-in keys

  function DigitChar(d: nat): char
    requires d < 10
  {
    (48 + d) as char
  }

  /** The number a string of decimal digits spells. */
  function DecimalValue(s: string): int
  {
    if |s| == 0 then 0 else DecimalValue(s[..|s| - 1]) * 10 + ((s[|s| - 1] as int) - 48)
  }

  /** The property name of index i: its decimal digits, without leading zeros. */
  function IndexKey(i: nat): (s: string)
    ensures |s| > 0 && DecimalValue(s) == i
  {
    if i < 10 then [DigitChar(i)]
    else
      var s := IndexKey(i / 10) + [DigitChar(i % 10)];
      assert s[..|s| - 1] == IndexKey(i / 10);
      s
  }

  /** A canonical decimal index: the property name of some array index. */
  predicate IsIndexKey(k: string)
  {
    DecimalValue(k) >= 0 && k == IndexKey(DecimalValue(k))
  }

  /** The elements of `items` keyed by their indexes; no other key. */
  function IndexFields(items: seq<Json>): (m: Obj)
    ensures forall i | 0 <= i < |items| :: IndexKey(i) in m && m[IndexKey(i)] == items[i]
    ensures forall k | k in m :: IsIndexKey(k) && DecimalValue(k) < |items|
  {
    if |items| == 0 then map[]
    else IndexFields(items[..|items| - 1])[IndexKey(|items| - 1) := items[|items| - 1]]
  }

  /** A string's elements as `src[key]` gives them: one-character strings. */
  function Chars(s: string): (cs: seq<Json>)
    ensures |cs| == |s| && forall i | 0 <= i < |s| :: cs[i] == JStr([s[i]])
  {
    seq(|s|, i requires 0 <= i < |s| => JStr([s[i]]))
  }

  /** The keys `for (let key in src)` visits, each with `src[key]`. */
  function Fields(src: Json): (m: Obj)
    ensures src.JObj? ==> m == src.fields
    ensures src.JNull? || src.JBool? || src.JNum? ==> m == map[]
  {
    match src
    case JObj(fields) => fields
    case JArr(items) => IndexFields(items)
    case JStr(s) => IndexFields(Chars(s))
    case _ => map[]
  }

  /** Arrays and strings are only ever met at the top: the recursion goes into objects and null. */
  function Rank(src: Json): nat
  {
    if src.JArr? || src.JStr? then 1 else 0
  }

  // ------------------------------------------------------------- merging

  /** dst[key] as the recursive call sees it: kept if object-like, {} otherwise. */
  function Target(d: Obj, k: string): (t: Json)
    ensures IsObjectLike(t)
    ensures k in d && IsObjectLike(d[k]) ==> t == d[k]
    ensures !(k in d && IsObjectLike(d[k])) ==> t == JObj(map[])
  {
    if k in d && IsObjectLike(d[k]) then d[k] else JObj(map[])
  }

  /**
   * mergeObject(dst, src) returns without throwing. An array or a string
   * is visited as the object of its indexed elements; a src with nothing
   * to visit never throws.
   */
  predicate Mergeable(dst: Json, src: Json)
    requires IsObjectLike(dst)
    ensures Fields(src) == map[] ==> Mergeable(dst, src)
    decreases Rank(src), src
  {
    match src
    case JObj(m) =>
      if dst.JNull? then m == map[]
      else forall k | k in m && IsObjectLike(m[k]) :: Mergeable(Target(dst.fields, k), m[k])
    case JArr(_) => Mergeable(dst, JObj(Fields(src)))
    case JStr(_) => Mergeable(dst, JObj(Fields(src)))
    case _ => true
  }

  /** The new value at a key k of src: an object-like value is merged into the target, any other is copied. */
  function NewValue(d: Obj, m: Obj, k: string): (v: Json)
    requires k in m
    requires IsObjectLike(m[k]) ==> Mergeable(Target(d, k), m[k])
    ensures IsObjectLike(m[k]) <==> IsObjectLike(v)
    ensures !IsObjectLike(m[k]) ==> v == m[k]
    decreases 0, JObj(m), 0
  {
    if IsObjectLike(m[k]) then Merged(Target(d, k), m[k]) else m[k]
  }

  /** dst after mergeObject(dst, src) returns: an object holding its old keys and every key src visits. */
  function Merged(dst: Json, src: Json): (r: Json)
    requires IsObjectLike(dst) && Mergeable(dst, src)
    ensures IsObjectLike(r)
    ensures dst.JNull? ==> r == JNull
    ensures dst.JObj? ==> r.JObj? && r.fields.Keys == dst.fields.Keys + Fields(src).Keys
    decreases Rank(src), src, 1
  {
    match src
    case JObj(m) =>
      if dst.JNull? then JNull
      else JObj(map k | k in dst.fields.Keys + m.Keys :: if k in m then NewValue(dst.fields, m, k) else dst.fields[k])
    case JArr(_) => Merged(dst, JObj(Fields(src)))
    case JStr(_) => Merged(dst, JObj(Fields(src)))
    case _ => dst
  }

  /** mergeObject, with its for-in loop and its recursive call; the result is dst. */
  method MergeObject(dst: Json, src: Json) returns (r: Result<Json, JsError>)
    requires IsObjectLike(dst)
    ensures r.Ok? <==> Mergeable(dst, src)
    ensures r.Ok? ==> r.value == Merged(dst, src)
    decreases Rank(src), src
  {
    if !src.JObj? {
      // for-in over an array or a string visits the object of its indexed elements, over anything else nothing
      if Fields(src) == map[] {
        return Ok(dst);
      }
      r := MergeObject(dst, JObj(Fields(src)));
      return;
    }
    if dst.JNull? {
      // the first key visited reads a property of null
      return if src.fields == map[] then Ok(dst) else Err(TypeError);
    }
    var m := src.fields;
    var d := dst.fields;
    var todo := m.Keys;
    while todo != {}
      invariant todo <= m.Keys
      invariant d.Keys == dst.fields.Keys + (m.Keys - todo)
      invariant forall k | k in d && k !in m.Keys - todo :: d[k] == dst.fields[k]
      invariant forall k | k in m.Keys - todo && IsObjectLike(m[k]) :: Mergeable(Target(dst.fields, k), m[k])
      invariant forall k | k in m.Keys - todo :: d[k] == NewValue(dst.fields, m, k)
      decreases todo
    {
      var k :| k in todo;
      var v := m[k];
      assert Target(d, k) == Target(dst.fields, k);
      if IsObjectLike(v) {
        var sub := MergeObject(Target(d, k), v);
        if sub.Err? {
          return Err(TypeError);
        }
        d := d[k := sub.value];
      } else {
        d := d[k := v];
      }
      todo := todo - {k};
    }
    assert d == Merged(dst, src).fields;
    return Ok(JObj(d));
  }

  /** A src with nothing to visit (a number, a boolean, null, [] or "") leaves dst as it was. */
  lemma NothingToVisitIsIdentity(dst: Json, src: Json)
    requires IsObjectLike(dst) && Fields(src) == map[]
    ensures Mergeable(dst, src) && Merged(dst, src) == dst
  {
    if dst.JObj? {
      assert Merged(dst, src).fields == dst.fields;
    }
  }

  /** Keys that src does not visit keep their old values. */
  lemma MergedKeepsOthers(d: Obj, src: Json, k: string)
    requires Mergeable(JObj(d), src)
    requires k in d && k !in Fields(src)
    ensures Merged(JObj(d), src).fields[k] == d[k]
  {
  }

  /**
   * A visited value that is not object-like overwrites dst[key]; an object
   * (or null) is merged into dst[key], or into {} when dst[key] is not
   * object-like.
   */
  lemma MergedValueAt(d: Obj, src: Json, k: string)
    requires Mergeable(JObj(d), src)
    requires k in Fields(src)
    ensures var v := Fields(src)[k];
      && (!IsObjectLike(v) ==> Merged(JObj(d), src).fields[k] == v)
      && (IsObjectLike(v) && k in d && IsObjectLike(d[k]) ==>
            Mergeable(d[k], v) && Merged(JObj(d), src).fields[k] == Merged(d[k], v))
      && (IsObjectLike(v) && !(k in d && IsObjectLike(d[k])) ==>
            Mergeable(JObj(map[]), v) && Merged(JObj(d), src).fields[k] == Merged(JObj(map[]), v))
  {
    var m := Fields(src);
    if src.JObj? {
      assert Merged(JObj(d), src).fields[k] == NewValue(d, m, k);
    } else {
      var o := JObj(m);
      assert Mergeable(JObj(d), o) && Merged(JObj(d), src) == Merged(JObj(d), o);
      assert Merged(JObj(d), o).fields[k] == NewValue(d, m, k);
    }
  }

  /** An array of non-objects is copied element by element, under the keys "0", "1", .... */
  lemma ArrayBecomesIndexKeys(d: Obj, items: seq<Json>, i: nat)
    requires forall j | 0 <= j < |items| :: !IsObjectLike(items[j])
    requires i < |items|
    ensures Mergeable(JObj(d), JArr(items))
    ensures Merged(JObj(d), JArr(items)).fields[IndexKey(i)] == items[i]
  {
  }

  /** A string is copied one character per key "0", "1", .... */
  lemma StringBecomesIndexKeys(d: Obj, s: string, i: nat)
    requires i < |s|
    ensures Mergeable(JObj(d), JStr(s))
    ensures Merged(JObj(d), JStr(s)).fields[IndexKey(i)] == JStr([s[i]])
  {
  }

  /** An object without object-like values merged into {} is copied as it is. */
  lemma CopyIntoEmpty(m: Obj)
    requires forall k | k in m :: !IsObjectLike(m[k])
    ensures Mergeable(JObj(map[]), JObj(m)) && Merged(JObj(map[]), JObj(m)) == JObj(m)
  {
    assert Merged(JObj(map[]), JObj(m)).fields == m;
  }

  /** PUT /api/values with the body [1,2] merged into {}. */
  lemma ArrayBody()
    ensures Mergeable(JObj(map[]), JArr([JNum(1.0), JNum(2.0)]))
    ensures Merged(JObj(map[]), JArr([JNum(1.0), JNum(2.0)])) == JObj(map["0" := JNum(1.0), "1" := JNum(2.0)])
  {
    var items := [JNum(1.0), JNum(2.0)];
    assert items[..1] == [JNum(1.0)];
    assert IndexKey(0) == "0" && IndexKey(1) == "1";
    var arr := map["0" := JNum(1.0), "1" := JNum(2.0)];
    assert IndexFields(items) == arr;
    CopyIntoEmpty(arr);
  }

  /** PUT /api/values with the body "ab" merged into {}. */
  lemma StringBody()
    ensures Mergeable(JObj(map[]), JStr("ab"))
    ensures Merged(JObj(map[]), JStr("ab")) == JObj(map["0" := JStr("a"), "1" := JStr("b")])
  {
    var cs := [JStr("a"), JStr("b")];
    assert Chars("ab") == cs;
    assert cs[..1] == [JStr("a")];
    assert IndexKey(0) == "0" && IndexKey(1) == "1";
    var str := map["0" := JStr("a"), "1" := JStr("b")];
    assert IndexFields(cs) == str;
    CopyIntoEmpty(str);
  }

  /** Because `typeof null == "object"`, a null in src turns a non-object dst[key] into {}. */
  lemma NullInSrcBecomesEmptyObject(d: Obj, k: string)
    requires k !in d || !IsObjectLike(d[k])
    ensures Mergeable(JObj(d), JObj(map[k := JNull]))
    ensures Merged(JObj(d), JObj(map[k := JNull])).fields[k] == JObj(map[])
  {
    var m := map[k := JNull];
    assert Mergeable(JObj(map[]), JNull);
    assert NewValue(d, m, k) == JObj(map[]);
  }

  /** Visiting any key of src through a null dst throws, whether src is an object, an array or a string. */
  lemma NullDstThrows(src: Json)
    ensures Fields(src) != map[] ==> !Mergeable(JNull, src)
    ensures (src.JArr? && |src.items| > 0) || (src.JStr? && |src.s| > 0) ==> !Mergeable(JNull, src)
  {
    if src.JStr? && |src.s| > 0 {
      assert IndexKey(0) in Fields(src);
    }
  }

  /** Merging a non-empty object into a null dst[key] throws. */
  lemma NullTargetThrows(d: Obj, m: Obj, k: string)
    requires k in d && d[k].JNull?
    requires k in m && m[k].JObj? && m[k].fields != map[]
    ensures !Mergeable(JObj(d), JObj(m))
  {
  }

  /** Merging the same src a second time changes nothing more. */
  lemma {:induction false} MergeIdempotent(dst: Json, src: Json)
    requires IsObjectLike(dst) && Mergeable(dst, src)
    ensures IsObjectLike(Merged(dst, src)) && Mergeable(Merged(dst, src), src)
    ensures Merged(Merged(dst, src), src) == Merged(dst, src)
    decreases Rank(src), src
  {
    match src {
      case JObj(m) =>
        if dst.JObj? {
          var d := dst.fields;
          var once := Merged(dst, src);
          forall k | k in m && IsObjectLike(m[k])
            ensures Mergeable(Target(once.fields, k), m[k])
            ensures Merged(Target(once.fields, k), m[k]) == once.fields[k]
          {
            assert once.fields[k] == NewValue(d, m, k);
            MergeIdempotent(Target(d, k), m[k]);
          }
          var twice := Merged(once, src);
          forall k | k in once.fields ensures twice.fields[k] == once.fields[k] {
            if k in m {
              assert twice.fields[k] == NewValue(once.fields, m, k);
              assert once.fields[k] == NewValue(d, m, k);
            }
          }
        }
      case JArr(_) => MergeIdempotent(dst, JObj(Fields(src)));
      case JStr(_) => MergeIdempotent(dst, JObj(Fields(src)));
      case _ =>
    }
  }
}
