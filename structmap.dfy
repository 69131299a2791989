/**
 * pkg/utils/lib.go: `StructToMap`, which turns a struct into a map from
 * field key to field value, skipping zero-valued fields. The struct is seen
 * through reflection as its fields in declaration order.
 */
module StructFields {
  import Text

  /** The option suffix the code strips from a `json` tag. */
  const OmitEmpty := ",omitempty"

  /**
   * One struct field as reflection shows it: its Go name, its `json` tag
   * (empty when absent), whether its value is the zero value, and the value.
   * A Go string is a sequence of bytes, and `len` and slicing count bytes, so
   * a tag holds one element per byte of its UTF-8 encoding. For an ASCII tag
   * such as "updatedAt" that is one element per character.
   */
  datatype Field<V> = Field(name: string, tag: string, isZero: bool, value: V)

  /** Whether `tag` carries the ",omitempty" option at its end. */
  predicate HasOmitEmpty(tag: string)
  {
    |OmitEmpty| <= |tag| && tag[|tag| - |OmitEmpty|..] == OmitEmpty
  }

  /**
   * The key a field is stored under, as intended: the field name when there
   * is no tag, otherwise the tag without a trailing ",omitempty".
   */
  function Key<V>(f: Field<V>): (k: string)
    ensures f.tag == "" ==> k == f.name
    ensures f.tag != "" && HasOmitEmpty(f.tag) ==> k + OmitEmpty == f.tag
    ensures f.tag != "" && !HasOmitEmpty(f.tag) ==> k == f.tag
  {
    if f.tag == "" then f.name else Text.TrimSuffix(f.tag, OmitEmpty)
  }

  /** Slicing `tag[:len(tag)-10]` is in bounds (ten bytes or more): otherwise the code panics. */
  predicate SliceDefined<V>(f: Field<V>)
  {
    f.isZero || f.tag == "" || |f.tag| >= |OmitEmpty|
  }

  /** The key lib.go:19-25 computes: the last ten bytes of any tag are cut, whatever they are. */
  function KeyAsWritten<V>(f: Field<V>): (k: string)
    requires SliceDefined(f) && !f.isZero
    ensures f.tag == "" ==> k == f.name
    ensures f.tag != "" ==> |k| == |f.tag| - |OmitEmpty| && k + f.tag[|k|..] == f.tag
  {
    if f.tag == "" then f.name else f.tag[..|f.tag| - |OmitEmpty|]
  }

  /** Per-field keys, in field order. */
  function Keys<V>(fields: seq<Field<V>>): (keys: seq<string>)
    ensures |keys| == |fields| && forall i :: 0 <= i < |fields| ==> keys[i] == Key(fields[i])
  {
    seq(|fields|, i requires 0 <= i < |fields| => Key(fields[i]))
  }

  /** Per-field keys as written; a zero field's key is never used, so it is left empty. */
  function KeysAsWritten<V>(fields: seq<Field<V>>): (keys: seq<string>)
    requires forall i :: 0 <= i < |fields| ==> SliceDefined(fields[i])
    ensures |keys| == |fields|
    ensures forall i :: 0 <= i < |fields| && !fields[i].isZero ==> keys[i] == KeyAsWritten(fields[i])
  {
    seq(|fields|, i requires 0 <= i < |fields| && SliceDefined(fields[i]) =>
      if fields[i].isZero then "" else KeyAsWritten(fields[i]))
  }

  /**
   * The map the loop builds when field i is stored under keys[i]: fields
   * are visited in order, zero fields are skipped, and a later field
   * overwrites an earlier one with the same key.
   */
  function Collect<V>(fields: seq<Field<V>>, keys: seq<string>): map<string, V>
    requires |keys| == |fields|
  {
    if |fields| == 0 then map[]
    else
      var n := |fields| - 1;
      var m := Collect(fields[..n], keys[..n]);
      if fields[n].isZero then m else m[keys[n] := fields[n].value]
  }

  /** Field i is stored, and no later stored field shares its key. */
  predicate LastWith<V>(fields: seq<Field<V>>, keys: seq<string>, i: nat)
    requires |keys| == |fields|
  {
    i < |fields| && !fields[i].isZero &&
    forall j :: i < j < |fields| && !fields[j].isZero ==> keys[j] != keys[i]
  }

  /**
   * A key is in the map exactly when some non-zero field is stored under
   * it, and its value is that of the last such field.
   */
  lemma CollectSpec<V>(fields: seq<Field<V>>, keys: seq<string>)
    requires |keys| == |fields|
    ensures forall k :: k in Collect(fields, keys) <==>
      exists i :: 0 <= i < |fields| && !fields[i].isZero && keys[i] == k
    ensures forall i :: 0 <= i < |fields| && LastWith(fields, keys, i) ==>
      keys[i] in Collect(fields, keys) && Collect(fields, keys)[keys[i]] == fields[i].value
  {
    CollectKeys(fields, keys);
    CollectValues(fields, keys);
  }

  lemma {:induction false} CollectKeys<V>(fields: seq<Field<V>>, keys: seq<string>)
    requires |keys| == |fields|
    ensures forall k :: k in Collect(fields, keys) <==>
      exists i :: 0 <= i < |fields| && !fields[i].isZero && keys[i] == k
  {
    if |fields| > 0 {
      var n := |fields| - 1;
      var fs, ks := fields[..n], keys[..n];
      CollectKeys(fs, ks);
      forall k ensures k in Collect(fields, keys) <==> exists i :: 0 <= i < |fields| && !fields[i].isZero && keys[i] == k {
        if k in Collect(fs, ks) {
          var i :| 0 <= i < n && !fs[i].isZero && ks[i] == k;
          assert !fields[i].isZero && keys[i] == k;
        }
        if exists i :: 0 <= i < |fields| && !fields[i].isZero && keys[i] == k {
          var i :| 0 <= i < |fields| && !fields[i].isZero && keys[i] == k;
          if i < n {
            assert !fs[i].isZero && ks[i] == k;
          }
        }
      }
    }
  }

  lemma {:induction false} CollectValues<V>(fields: seq<Field<V>>, keys: seq<string>)
    requires |keys| == |fields|
    ensures forall i :: 0 <= i < |fields| && LastWith(fields, keys, i) ==>
      keys[i] in Collect(fields, keys) && Collect(fields, keys)[keys[i]] == fields[i].value
  {
    if |fields| > 0 {
      var n := |fields| - 1;
      var fs, ks := fields[..n], keys[..n];
      CollectValues(fs, ks);
      forall i | 0 <= i < |fields| && LastWith(fields, keys, i)
        ensures keys[i] in Collect(fields, keys) && Collect(fields, keys)[keys[i]] == fields[i].value
      {
        if i < n {
          assert LastWith(fs, ks, i);
        }
      }
    }
  }

  /** Zero-valued fields never reach the map: clearing one changes nothing. */
  lemma {:induction false} CollectSkipsZero<V>(fields: seq<Field<V>>, keys: seq<string>, i: nat, v: V)
    requires |keys| == |fields| && i < |fields|
    ensures Collect(fields[i := fields[i].(isZero := true, value := v)], keys) ==
      Collect(fields[..i] + fields[i + 1..], keys[..i] + keys[i + 1..])
  {
    var n := |fields| - 1;
    var cleared := fields[i := fields[i].(isZero := true, value := v)];
    if i == n {
      assert cleared[..n] == fields[..n] == fields[..i] + fields[i + 1..];
      assert keys[..n] == keys[..i] + keys[i + 1..];
    } else {
      CollectSkipsZero(fields[..n], keys[..n], i, v);
      assert cleared[..n] == fields[..n][i := fields[i].(isZero := true, value := v)];
      var rest, restKeys := fields[..i] + fields[i + 1..], keys[..i] + keys[i + 1..];
      assert rest[..|rest| - 1] == fields[..n][..i] + fields[..n][i + 1..];
      assert restKeys[..|restKeys| - 1] == keys[..n][..i] + keys[..n][i + 1..];
      assert rest[|rest| - 1] == fields[n] && restKeys[|restKeys| - 1] == keys[n];
    }
  }

  /** `StructToMap` with the evidently intended key: a trailing ",omitempty" is removed only when present. */
  method StructToMap<V>(fields: seq<Field<V>>) returns (result: map<string, V>)
    ensures result == Collect(fields, Keys(fields))
  {
    result := map[];
    for i := 0 to |fields|
      invariant result == Collect(fields[..i], Keys(fields)[..i])
    {
      assert fields[..i + 1][..i] == fields[..i];
      assert Keys(fields)[..i + 1][..i] == Keys(fields)[..i];
      var field := fields[i];
      if field.isZero {
        continue;
      }
      var tag := field.tag;
      if tag == "" {
        tag := field.name;
      } else {
        tag := Text.TrimSuffix(tag, OmitEmpty);
      }
      result := result[tag := field.value];
    }
    assert fields[..|fields|] == fields;
    assert Keys(fields)[..|fields|] == Keys(fields);
  }

  /** `StructToMap` as lib.go:5-31 writes it; the slice panics unless every stored tagged field has ten bytes or more. */
  method StructToMapAsWritten<V>(fields: seq<Field<V>>) returns (result: map<string, V>)
    requires forall i :: 0 <= i < |fields| ==> SliceDefined(fields[i])
    ensures result == Collect(fields, KeysAsWritten(fields))
  {
    result := map[];
    for i := 0 to |fields|
      invariant result == Collect(fields[..i], KeysAsWritten(fields)[..i])
    {
      assert fields[..i + 1][..i] == fields[..i];
      assert KeysAsWritten(fields)[..i + 1][..i] == KeysAsWritten(fields)[..i];
      var field := fields[i];
      if field.isZero {
        continue;
      }
      var tag := field.tag;
      if tag == "" {
        tag := field.name;
      } else {
        tag := tag[..|tag| - |OmitEmpty|];
      }
      result := result[tag := field.value];
    }
    assert fields[..|fields|] == fields;
    assert KeysAsWritten(fields)[..|fields|] == KeysAsWritten(fields);
  }

  /** The two agree exactly on fields whose tag, when present, ends in ",omitempty". */
  lemma KeyAgreement<V>(f: Field<V>)
    requires SliceDefined(f) && !f.isZero
    ensures KeyAsWritten(f) == Key(f) <==> (f.tag == "" || HasOmitEmpty(f.tag))
  {
    if f.tag != "" && !HasOmitEmpty(f.tag) {
      assert |KeyAsWritten(f)| < |f.tag| == |Key(f)|;
    }
  }

  /**
   * The record `UpdateUser` stores (users/main.go:121-127) is a `User`
   * (users/main.go:13-22) whose fifth field, `Password`, holds a bcrypt hash
   * and so is never empty, and whose eighth field, `UpdatedAt`, is always set.
   * Their tags "password" (8 bytes) and "updatedAt" (9 bytes) are both too
   * short, so the as-written slice panics on every such call.
   */
  lemma UpdateRecordPanics<V>(fields: seq<Field<V>>)
    requires |fields| == 8
    requires fields[4].tag == "password" && !fields[4].isZero
    requires fields[7].tag == "updatedAt" && !fields[7].isZero
    ensures !SliceDefined(fields[4]) && !SliceDefined(fields[7])
    ensures !(forall i :: 0 <= i < |fields| ==> SliceDefined(fields[i]))
  {
    assert !SliceDefined(fields[4]);
  }

  /** A ten-byte tag without the option loses all of itself as written, but keeps it as intended. */
  lemma TenByteTag<V>(v: V)
    ensures var f := Field("Identifier", "identifier", false, v);
      KeyAsWritten(f) == "" && Key(f) == "identifier"
  {
    var f := Field("Identifier", "identifier", false, v);
    assert !HasOmitEmpty(f.tag) by {
      assert f.tag[0] != OmitEmpty[0];
    }
  }

  /** The intended keys of the `User` record's tagged fields (users/main.go:14-21). */
  lemma UserKeys<V>(v: V)
    ensures Key(Field("PK", "pk,omitempty", false, v)) == "pk"
    ensures Key(Field("Name", "name", false, v)) == "name"
    ensures Key(Field("UpdatedAt", "updatedAt", false, v)) == "updatedAt"
  {
    assert HasOmitEmpty("pk,omitempty");
    assert !HasOmitEmpty("name");
    assert !HasOmitEmpty("updatedAt");
  }
}
