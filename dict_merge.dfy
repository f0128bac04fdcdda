/**
 * merge_dict of daemon/src/core/state.py: merges `src` into the
 * dictionary `dst`, descending into every key whose old value in `dst`
 * is itself a dictionary and overwriting every other key.
 *
 * Python iterates `src` with `for k in src`: a dictionary yields its
 * keys, an empty list or string yields nothing, and every other value
 * makes the loop or the `src[k]` lookup raise TypeError.
 */
module DictMerge {
  import opened Wrappers
  import opened Json

  type Dict = map<string, Json>

  datatype MergeError = TypeError

  /**
   * merge_dict(dst, src) returns without raising: only a dictionary or an
   * empty list or string can be merged, and a dictionary that meets no
   * dictionary of dst always can.
   */
  predicate Mergeable(dst: Dict, src: Json)
    ensures Mergeable(dst, src) ==> src.JObj? || src == JArr([]) || src == JStr([])
    ensures src.JObj? && (forall k | k in src.fields && k in dst :: !dst[k].JObj?) ==> Mergeable(dst, src)
    decreases src
  {
    match src
    case JObj(m) => forall k | k in m && k in dst && dst[k].JObj? :: Mergeable(dst[k].fields, m[k])
    case JArr(items) => |items| == 0
    case JStr(s) => |s| == 0
    case _ => false
  }

  /** The new value of key k, which src holds. */
  function Entry(dst: Dict, m: Dict, k: string): Json
    requires k in m
    requires k in dst && dst[k].JObj? ==> Mergeable(dst[k].fields, m[k])
    decreases JObj(m), 0
  {
    if k in dst && dst[k].JObj? then JObj(Merged(dst[k].fields, m[k])) else m[k]
  }

  /** The dictionary dst after merge_dict(dst, src) returns: its old keys and every key of src. */
  function Merged(dst: Dict, src: Json): (r: Dict)
    requires Mergeable(dst, src)
    ensures r.Keys == dst.Keys + (if src.JObj? then src.fields.Keys else {})
    decreases src, 1
  {
    match src
    case JObj(m) => map k | k in dst.Keys + m.Keys :: if k in m then Entry(dst, m, k) else dst[k]
    case _ => dst
  }

  /** merge_dict, with its loop over the keys of src and its recursive call. */
  method MergeDict(dst: Dict, src: Json) returns (r: Result<Dict, MergeError>)
    ensures r.Ok? <==> Mergeable(dst, src)
    ensures r.Ok? ==> r.value == Merged(dst, src)
    decreases src
  {
    match src {
      case JObj(m) =>
        var d := dst;
        var todo := m.Keys;
        while todo != {}
          invariant todo <= m.Keys
          invariant d.Keys == dst.Keys + (m.Keys - todo)
          invariant forall k | k in d && k !in m.Keys - todo :: d[k] == dst[k]
          invariant forall k | k in m.Keys - todo && k in dst && dst[k].JObj? :: Mergeable(dst[k].fields, m[k])
          invariant forall k | k in m.Keys - todo :: d[k] == Entry(dst, m, k)
          decreases todo
        {
          var k :| k in todo;
          if k in d && d[k].JObj? {
            var sub := MergeDict(d[k].fields, m[k]);
            if sub.Err? {
              return Err(TypeError);
            }
            d := d[k := JObj(sub.value)];
          } else {
            d := d[k := m[k]];
          }
          todo := todo - {k};
        }
        return Ok(d);
      case JArr(items) =>
        return if |items| == 0 then Ok(dst) else Err(TypeError);
      case JStr(s) =>
        return if |s| == 0 then Ok(dst) else Err(TypeError);
      case _ =>
        return Err(TypeError);
    }
  }

  /** Keys that src does not hold keep their old values. */
  lemma MergedKeepsOthers(dst: Dict, m: Dict, k: string)
    requires Mergeable(dst, JObj(m))
    requires k in dst && k !in m
    ensures Merged(dst, JObj(m))[k] == dst[k]
  {
  }

  /** A key of src overwrites dst, unless dst held a dictionary there, which is merged into. */
  lemma MergedOverwritesOrDescends(dst: Dict, m: Dict, k: string)
    requires Mergeable(dst, JObj(m))
    requires k in m
    ensures k in dst && dst[k].JObj? ==>
      Mergeable(dst[k].fields, m[k]) && Merged(dst, JObj(m))[k] == JObj(Merged(dst[k].fields, m[k]))
    ensures !(k in dst && dst[k].JObj?) ==> Merged(dst, JObj(m))[k] == m[k]
  {
  }

  /** merge_dict raises once dst holds a dictionary where src holds null, a boolean, a number or a non-empty string. */
  lemma ScalarOverDictRaises(dst: Dict, m: Dict, k: string)
    requires k in m && k in dst && dst[k].JObj?
    requires m[k].JNull? || m[k].JBool? || m[k].JNum? || (m[k].JStr? && m[k].s != [])
    ensures !Mergeable(dst, JObj(m))
  {
  }

  /** Merging an empty dictionary, list or string leaves dst as it was. */
  lemma MergeEmptyIsIdentity(dst: Dict)
    ensures Mergeable(dst, JObj(map[])) && Merged(dst, JObj(map[])) == dst
    ensures Mergeable(dst, JArr([])) && Merged(dst, JArr([])) == dst
    ensures Mergeable(dst, JStr([])) && Merged(dst, JStr([])) == dst
  {
  }

  /** Merging a dictionary into itself changes nothing. */
  lemma {:induction false} SelfMerge(d: Dict)
    ensures Mergeable(d, JObj(d)) && Merged(d, JObj(d)) == d
    decreases JObj(d)
  {
    forall k | k in d && d[k].JObj?
      ensures Mergeable(d[k].fields, d[k]) && Merged(d[k].fields, d[k]) == d[k].fields
    {
      SelfMerge(d[k].fields);
    }
    var r := Merged(d, JObj(d));
    forall k | k in d ensures r[k] == d[k] {
      assert r[k] == Entry(d, d, k);
    }
  }

  /** Merging the same src a second time changes nothing more. */
  lemma {:induction false} MergeIdempotent(dst: Dict, src: Json)
    requires Mergeable(dst, src)
    ensures Mergeable(Merged(dst, src), src)
    ensures Merged(Merged(dst, src), src) == Merged(dst, src)
    decreases src
  {
    match src {
      case JObj(m) =>
        var once := Merged(dst, src);
        forall k | k in m && k in once && once[k].JObj?
          ensures Mergeable(once[k].fields, m[k]) && Merged(once[k].fields, m[k]) == once[k].fields
        {
          assert once[k] == Entry(dst, m, k);
          if k in dst && dst[k].JObj? {
            MergeIdempotent(dst[k].fields, m[k]);
          } else {
            SelfMerge(m[k].fields);
          }
        }
        assert Mergeable(once, src);
        var twice := Merged(once, src);
        forall k | k in once ensures twice[k] == once[k] {
          if k in m {
            assert twice[k] == Entry(once, m, k);
            assert once[k] == Entry(dst, m, k);
          }
        }
      case _ =>
    }
  }
}
