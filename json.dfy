/** A JSON-like value tree with insertion-ordered objects, the shape of a parsed
    glTF asset as JavaScript holds it.  Objects are sequences of fields so that
    insertion order (which `for...in` and `Object.keys` follow) is part of the model;
    `JBytes` stands for a typed array such as a `Uint8Array` resource source. */
module Json {
  import opened Wrappers
  import opened Bytes

  datatype Json =
    | JNull
    | JBool(b: bool)
    | JNum(n: int)
    | JStr(s: string)
    | JBytes(bytes: seq<byte>)
    | JArr(elems: seq<Json>)
    | JObj(fields: seq<Field>)

  datatype Field = Field(key: string, value: Json)

  /** Property read `object[k]`: the first field with key `k`. */
  function Lookup(fs: seq<Field>, k: string): (r: Option<Json>)
    ensures r.Some? ==> |fs| > 0
  {
    if fs == [] then None
    else if fs[0].key == k then Some(fs[0].value)
    else Lookup(fs[1..], k)
  }

  /** A read finds a property exactly when some field has its key, and then
      returns the value of such a field. */
  lemma {:induction false} LookupFound(fs: seq<Field>, k: string)
    ensures Lookup(fs, k).Some? <==> exists i :: 0 <= i < |fs| && fs[i].key == k
    ensures Lookup(fs, k).Some? ==> exists i :: 0 <= i < |fs| && fs[i] == Field(k, Lookup(fs, k).value)
  {
    if fs != [] && fs[0].key != k {
      LookupFound(fs[1..], k);
      if Lookup(fs, k).Some? {
        var i :| 0 <= i < |fs[1..]| && fs[1..][i] == Field(k, Lookup(fs, k).value);
        assert fs[i + 1] == Field(k, Lookup(fs, k).value);
      }
      if exists i :: 0 <= i < |fs| && fs[i].key == k {
        var i :| 0 <= i < |fs| && fs[i].key == k;
        assert fs[1..][i - 1].key == k;
      }
    }
  }

  /** The key of any field can be read. */
  lemma LookupAt(fs: seq<Field>, i: nat)
    requires i < |fs|
    ensures Lookup(fs, fs[i].key).Some?
  {
    LookupFound(fs, fs[i].key);
  }

  /** A read of a concatenation looks in the second part only when the
      first lacks the key. */
  lemma {:induction false} LookupAppend(a: seq<Field>, b: seq<Field>, k: string)
    ensures Lookup(a + b, k) == if Lookup(a, k).Some? then Lookup(a, k) else Lookup(b, k)
  {
    if a == [] {
      assert a + b == b;
    } else {
      assert (a + b)[1..] == a[1..] + b;
      LookupAppend(a[1..], b, k);
    }
  }

  /** Cesium's `defined`: present and neither `undefined` nor `null`. */
  predicate Defined(o: Option<Json>) {
    o.Some? && o.value != JNull
  }

  /** Property assignment `object[k] = v`: an existing key keeps its place,
      a new key is appended (JavaScript's own-key order). */
  function Put(fs: seq<Field>, k: string, v: Json): (r: seq<Field>)
    ensures Lookup(r, k) == Some(v)
    ensures forall k' :: k' != k ==> Lookup(r, k') == Lookup(fs, k')
  {
    if fs == [] then [Field(k, v)]
    else if fs[0].key == k then [Field(k, v)] + fs[1..]
    else [fs[0]] + Put(fs[1..], k, v)
  }

  /** A new property goes last; an existing one is replaced in place. */
  lemma {:induction false} PutShape(fs: seq<Field>, k: string, v: Json)
    ensures Lookup(fs, k).None? ==> Put(fs, k, v) == fs + [Field(k, v)]
    ensures Lookup(fs, k).Some? ==> |Put(fs, k, v)| == |fs|
  {
    if fs != [] && fs[0].key != k {
      PutShape(fs[1..], k, v);
      if Lookup(fs, k).None? {
        assert [fs[0]] + (fs[1..] + [Field(k, v)]) == fs + [Field(k, v)];
      }
    }
  }

  /** Assignment changes at most the one field it writes. */
  lemma {:induction false} PutElems(fs: seq<Field>, k: string, v: Json)
    ensures forall i :: 0 <= i < |Put(fs, k, v)| ==> Put(fs, k, v)[i] == Field(k, v) || (i < |fs| && Put(fs, k, v)[i] == fs[i])
  {
    if fs != [] && fs[0].key != k {
      PutElems(fs[1..], k, v);
    }
  }

  /** Assigning a property the value it already has changes nothing. */
  lemma {:induction false} PutSame(fs: seq<Field>, k: string)
    requires Lookup(fs, k).Some?
    ensures Put(fs, k, Lookup(fs, k).value) == fs
  {
    if fs[0].key != k {
      PutSame(fs[1..], k);
    }
  }

  /** `delete object[k]`. */
  function Delete(fs: seq<Field>, k: string): (r: seq<Field>)
    ensures Lookup(r, k).None?
    ensures forall k' :: k' != k ==> Lookup(r, k') == Lookup(fs, k')
    ensures Lookup(fs, k).None? ==> r == fs
    ensures |r| <= |fs|
  {
    if fs == [] then []
    else if fs[0].key == k then Delete(fs[1..], k)
    else [fs[0]] + Delete(fs[1..], k)
  }

  /** `defaultValue(object[k], v)` written back: assigns only when the
      property is not defined. */
  function SetDefault(fs: seq<Field>, k: string, v: Json): (r: seq<Field>)
    ensures Defined(Lookup(fs, k)) ==> r == fs
    ensures !Defined(Lookup(fs, k)) ==> Lookup(r, k) == Some(v)
    ensures forall k' :: k' != k ==> Lookup(r, k') == Lookup(fs, k')
  {
    if Defined(Lookup(fs, k)) then fs else Put(fs, k, v)
  }

  /** The field list of an object value, empty for anything else. */
  function FieldsOf(j: Json): seq<Field> {
    if j.JObj? then j.fields else []
  }

  /** The decimal spelling of `n`: the key of an array index, and the text
      `index + extension` produces. */
  function Decimal(n: nat): (r: string)
    ensures |r| > 0
    ensures forall i :: 0 <= i < |r| ==> '0' <= r[i] <= '9'
    ensures n < 10 <==> |r| == 1
    ensures r[0] == '0' <==> n == 0
    decreases n
  {
    var d := [(n % 10) as char + '0'];
    if n < 10 then d else Decimal(n / 10) + d
  }

  /** Distinct indices have distinct keys. */
  lemma {:induction false} DecimalInjective(a: nat, b: nat)
    requires Decimal(a) == Decimal(b)
    ensures a == b
    decreases a
  {
    var da, db := Decimal(a), Decimal(b);
    assert da[|da| - 1] == (a % 10) as char + '0';
    assert db[|db| - 1] == (b % 10) as char + '0';
    assert a % 10 == b % 10;
    if 10 <= a {
      assert Decimal(a / 10) == da[..|da| - 1] == db[..|db| - 1] == Decimal(b / 10);
      DecimalInjective(a / 10, b / 10);
    }
  }
}
