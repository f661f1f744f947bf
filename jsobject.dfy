/** A JavaScript plain object as the table and the form hold it: an ordered
    list of key/value entries. `Keys` is the order `Object.keys` and `for...in`
    report (insertion order), `Put` is the spread update `{...o, [k]: v}` and
    `Delete` is the `delete o[k]` statement. */
module JsObject {
  import opened Seqs

  /** The values a field can hold here: `null`, a string or a number. */
  datatype Value = Null | Str(s: string) | Num(x: real)

  datatype Entry = Entry(key: string, value: Value)

  type Obj = seq<Entry>

  function Keys(o: Obj): (ks: seq<string>)
    ensures |ks| == |o|
    ensures forall i :: 0 <= i < |o| ==> ks[i] == o[i].key
  {
    if |o| == 0 then [] else [o[0].key] + Keys(o[1..])
  }

  lemma KeysCons(e: Entry, o: Obj)
    ensures Keys([e] + o) == [e.key] + Keys(o)
  {
    assert ([e] + o)[1..] == o;
  }

  lemma GetCons(e: Entry, o: Obj)
    ensures forall k :: Get([e] + o, k) == if e.key == k then Some(e.value) else Get(o, k)
  {
    assert ([e] + o)[1..] == o;
  }

  /** Every key occurs once, as in a real object. */
  predicate WellFormed(o: Obj) {
    NoDuplicates(Keys(o))
  }

  /** `o[k]`, with `None` standing for `undefined` (no such key). */
  function Get(o: Obj, k: string): (r: Option<Value>)
    ensures r.Some? <==> k in Keys(o)
    ensures r.Some? ==> Entry(k, r.value) in o
  {
    if |o| == 0 then None
    else if o[0].key == k then Some(o[0].value)
    else Get(o[1..], k)
  }

  /** `{...o, [k]: v}`: an existing key keeps its position and takes the new
      value; a new key is appended. */
  function Put(o: Obj, k: string, v: Value): (r: Obj)
    ensures Keys(r) == if k in Keys(o) then Keys(o) else Keys(o) + [k]
    ensures Get(r, k) == Some(v)
    ensures forall k' :: k' != k ==> Get(r, k') == Get(o, k')
  {
    if |o| == 0 then [Entry(k, v)]
    else if o[0].key == k then
      KeysCons(Entry(k, v), o[1..]);
      KeysCons(o[0], o[1..]);
      GetCons(Entry(k, v), o[1..]);
      GetCons(o[0], o[1..]);
      [Entry(k, v)] + o[1..]
    else
      var rest := Put(o[1..], k, v);
      PutStep(o, k, v, rest);
      [o[0]] + rest
  }

  /** The recursive case of `Put`: the first entry is kept in front of the
      updated rest. */
  lemma PutStep(o: Obj, k: string, v: Value, rest: Obj)
    requires |o| > 0 && o[0].key != k
    requires Keys(rest) == if k in Keys(o[1..]) then Keys(o[1..]) else Keys(o[1..]) + [k]
    requires Get(rest, k) == Some(v)
    requires forall k' :: k' != k ==> Get(rest, k') == Get(o[1..], k')
    ensures Keys([o[0]] + rest) == if k in Keys(o) then Keys(o) else Keys(o) + [k]
    ensures Get([o[0]] + rest, k) == Some(v)
    ensures forall k' :: k' != k ==> Get([o[0]] + rest, k') == Get(o, k')
  {
    KeysCons(o[0], rest);
    KeysCons(o[0], o[1..]);
    assert [o[0]] + o[1..] == o;
    GetCons(o[0], rest);
    GetCons(o[0], o[1..]);
  }

  /** `delete o[k]`: the entry for `k` goes, the others keep their order. */
  function Delete(o: Obj, k: string): (r: Obj)
    ensures k !in Keys(r)
    ensures forall k' :: k' != k ==> Get(r, k') == Get(o, k')
    ensures IsSubsequence(Keys(r), Keys(o))
    ensures forall k' :: k' in Keys(o) && k' != k ==> k' in Keys(r)
  {
    if |o| == 0 then []
    else if o[0].key == k then Delete(o[1..], k)
    else [o[0]] + Delete(o[1..], k)
  }

  lemma {:induction false} PutWellFormed(o: Obj, k: string, v: Value)
    requires WellFormed(o)
    ensures WellFormed(Put(o, k, v))
  {
    var ks := Keys(o);
    if k !in ks {
      assert Keys(Put(o, k, v)) == ks + [k];
      forall i, j | 0 <= i < j < |ks| + 1 ensures (ks + [k])[i] != (ks + [k])[j] {
        if j == |ks| {
          assert ks[i] in ks;
        }
      }
    }
  }

  lemma {:induction false} DeleteWellFormed(o: Obj, k: string)
    requires WellFormed(o)
    ensures WellFormed(Delete(o, k))
  {
    if |o| > 0 {
      assert Keys(o) == [o[0].key] + Keys(o[1..]);
      assert WellFormed(o[1..]) by {
        forall i, j | 0 <= i < j < |o[1..]| ensures Keys(o[1..])[i] != Keys(o[1..])[j] {
          assert Keys(o)[i + 1] == Keys(o[1..])[i];
          assert Keys(o)[j + 1] == Keys(o[1..])[j];
        }
      }
      DeleteWellFormed(o[1..], k);
      if o[0].key != k {
        var rest := Delete(o[1..], k);
        assert Keys(Delete(o, k)) == [o[0].key] + Keys(rest);
        forall j | 0 <= j < |rest| ensures Keys(rest)[j] != o[0].key {
          assert Keys(rest)[j] in Keys(rest);
          assert Get(rest, Keys(rest)[j]) == Get(o[1..], Keys(rest)[j]);
          var i :| 0 <= i < |o[1..]| && Keys(o[1..])[i] == Keys(rest)[j];
          assert Keys(o)[i + 1] == Keys(rest)[j];
        }
      }
    }
  }
}
