/** JavaScript objects whose keys are field names and whose values are
    messages, as the validation code builds them. An object is an association
    list in insertion order, because `Object.keys`, `Object.values` and
    `Object.entries` list the keys in the order they were first assigned. */
module Records {
  import opened Wrappers

  type Fields = seq<(string, string)>

  /** `Object.keys(fields)`. */
  function Keys(fields: Fields): (keys: seq<string>)
    ensures |keys| == |fields|
    ensures forall i :: 0 <= i < |fields| ==> keys[i] == fields[i].0
  {
    if fields == [] then [] else [fields[0].0] + Keys(fields[1..])
  }

  /** `Object.values(fields)`. */
  function Values(fields: Fields): (values: seq<string>)
    ensures |values| == |fields|
    ensures forall i :: 0 <= i < |fields| ==> values[i] == fields[i].1
  {
    if fields == [] then [] else [fields[0].1] + Values(fields[1..])
  }

  /** No key occurs twice, as in every JavaScript object. */
  predicate DistinctKeys(fields: Fields) {
    forall i, j :: 0 <= i < j < |fields| ==> fields[i].0 != fields[j].0
  }

  /** `fields[key]`, `None` standing for `undefined`. */
  function Get(fields: Fields, key: string): (r: Option<string>)
    ensures r.None? <==> key !in Keys(fields)
    ensures r.Some? ==> (key, r.value) in fields
  {
    if fields == [] then None
    else if fields[0].0 == key then Some(fields[0].1)
    else Get(fields[1..], key)
  }

  /** `fields[key] = value`: an existing key keeps its place and takes the new
      value, a new key goes last. */
  function Put(fields: Fields, key: string, value: string): Fields {
    if fields == [] then [(key, value)]
    else if fields[0].0 == key then [(key, value)] + fields[1..]
    else [fields[0]] + Put(fields[1..], key, value)
  }

  /** The keys after the assignment. */
  lemma {:induction false} PutKeys(fields: Fields, key: string, value: string)
    ensures key in Keys(fields) ==> Keys(Put(fields, key, value)) == Keys(fields)
    ensures key !in Keys(fields) ==> Keys(Put(fields, key, value)) == Keys(fields) + [key]
  {
    if fields != [] {
      KeysTail(fields);
      var r := Put(fields, key, value);
      KeysTail(r);
      if fields[0].0 != key {
        PutKeys(fields[1..], key, value);
        assert r[1..] == Put(fields[1..], key, value);
      } else {
        assert r[1..] == fields[1..];
      }
    }
  }

  /** After the assignment the key reads as the new value and every other key
      as before. */
  lemma {:induction false} PutGet(fields: Fields, key: string, value: string)
    ensures Get(Put(fields, key, value), key) == Some(value)
    ensures forall k :: k != key ==> Get(Put(fields, key, value), k) == Get(fields, k)
  {
    if fields != [] && fields[0].0 != key {
      PutGet(fields[1..], key, value);
      var r := Put(fields, key, value);
      assert r[0] == fields[0] && r[1..] == Put(fields[1..], key, value);
    }
  }

  /** Assigning a key keeps the keys distinct. */
  lemma PutDistinct(fields: Fields, key: string, value: string)
    requires DistinctKeys(fields)
    ensures DistinctKeys(Put(fields, key, value))
  {
    var r := Put(fields, key, value);
    PutKeys(fields, key, value);
    var before, after := Keys(fields), Keys(r);
    forall i, j | 0 <= i < j < |r| ensures r[i].0 != r[j].0 {
      assert r[i].0 == after[i] && r[j].0 == after[j];
      if key in before {
        assert after[i] == fields[i].0 && after[j] == fields[j].0;
      } else if j < |fields| {
        assert after[i] == fields[i].0 && after[j] == fields[j].0;
      } else {
        assert after[j] == key && after[i] == before[i];
      }
    }
  }

  /** A key with a distinct-keyed object's entry: its value is the one stored. */
  lemma GetEntry(fields: Fields, i: nat)
    requires DistinctKeys(fields) && i < |fields|
    ensures Get(fields, fields[i].0) == Some(fields[i].1)
  {
    if i > 0 {
      assert fields[0].0 != fields[i].0;
      assert DistinctKeys(fields[1..]) by {
        forall a, b | 0 <= a < b < |fields| - 1 ensures fields[1..][a].0 != fields[1..][b].0 {
          assert fields[1..][a] == fields[a + 1] && fields[1..][b] == fields[b + 1];
        }
      }
      GetEntry(fields[1..], i - 1);
    }
  }

  /** The keys after the first entry. */
  lemma KeysTail(fields: Fields)
    requires fields != []
    ensures Keys(fields) == [fields[0].0] + Keys(fields[1..])
  {
    var k, t := Keys(fields), Keys(fields[1..]);
    assert |k| == 1 + |t|;
    forall i | 0 <= i < |k| ensures k[i] == ([fields[0].0] + t)[i] {
      if i > 0 {
        assert t[i - 1] == fields[1..][i - 1].0;
      }
    }
  }

  /** Assigning a key other than the first one's. */
  lemma PutCons(x: (string, string), fields: Fields, key: string, value: string)
    requires x.0 != key
    ensures Put([x] + fields, key, value) == [x] + Put(fields, key, value)
  {
    assert ([x] + fields)[0] == x && ([x] + fields)[1..] == fields;
  }

  /** Assigning a key that is not in `base` leaves `base` in front. */
  lemma {:induction false} PutAfter(base: Fields, rest: Fields, key: string, value: string)
    requires forall i :: 0 <= i < |base| ==> base[i].0 != key
    ensures Put(base + rest, key, value) == base + Put(rest, key, value)
  {
    if base == [] {
      assert base + rest == rest;
    } else {
      PutAfter(base[1..], rest, key, value);
      assert base + rest == [base[0]] + (base[1..] + rest);
      PutCons(base[0], base[1..] + rest, key, value);
      assert [base[0]] + (base[1..] + Put(rest, key, value)) == base + Put(rest, key, value);
    }
  }

  /** Assigning a key the object does not have appends it. */
  lemma PutNew(fields: Fields, key: string, value: string)
    requires key !in Keys(fields)
    ensures Put(fields, key, value) == fields + [(key, value)]
  {
    assert forall i :: 0 <= i < |fields| ==> Keys(fields)[i] == fields[i].0;
    PutAfter(fields, [], key, value);
    assert fields + [] == fields;
  }

  /** Assigning the last key again replaces its value. */
  lemma PutLastReplaces(base: Fields, key: string, previous: string, msg: string)
    requires key !in Keys(base)
    ensures Put(base + [(key, previous)], key, msg) == base + [(key, msg)]
  {
    assert forall i :: 0 <= i < |base| ==> Keys(base)[i] == base[i].0;
    PutAfter(base, [(key, previous)], key, msg);
  }

  /** The keys of two objects written one after the other. */
  lemma KeysConcat(a: Fields, b: Fields)
    ensures Keys(a + b) == Keys(a) + Keys(b)
  {
    var l, r := Keys(a + b), Keys(a) + Keys(b);
    assert |l| == |r|;
    forall i | 0 <= i < |l| ensures l[i] == r[i] {
      if i < |a| {
        assert (a + b)[i] == a[i];
      } else {
        assert (a + b)[i] == b[i - |a|];
      }
    }
  }
}
