/**
 * The header mapping of a message, std::map<std::string, std::string>:
 * an association list kept strictly sorted by key (std::less on strings),
 * which is also the order in which the serialisers emit the fields.
 */
module Headers {
  import opened Strings
  import opened Wrappers

  datatype Field = Field(key: string, value: string)

  /** The std::map invariant: keys strictly increasing, hence unique. */
  predicate Sorted(hs: seq<Field>)
  {
    forall i, j :: 0 <= i < j < |hs| ==> StrLess(hs[i].key, hs[j].key)
  }

  /** The abstract mapping the list stands for. */
  function AsMap(hs: seq<Field>): map<string, string>
  {
    if hs == [] then map[] else AsMap(hs[1..])[hs[0].key := hs[0].value]
  }

  /** Every key of the list is a key of the mapping, and nothing else is. */
  lemma {:induction false} AsMapKeys(hs: seq<Field>)
    ensures forall i :: 0 <= i < |hs| ==> hs[i].key in AsMap(hs)
    ensures forall k :: k in AsMap(hs) ==> exists i :: 0 <= i < |hs| && hs[i].key == k
  {
    if hs != [] {
      AsMapKeys(hs[1..]);
      forall i | 0 < i < |hs| ensures hs[i].key in AsMap(hs) {
        assert hs[1..][i - 1] == hs[i];
      }
      forall k | k in AsMap(hs) ensures exists i :: 0 <= i < |hs| && hs[i].key == k {
        if k != hs[0].key {
          var i :| 0 <= i < |hs[1..]| && hs[1..][i].key == k;
          assert hs[i + 1].key == k;
        }
      }
    }
  }

  /** A key below the first key of a sorted list is not in it. */
  lemma {:induction false} BelowFirstAbsent(hs: seq<Field>, k: string)
    requires Sorted(hs) && hs != [] && StrLess(k, hs[0].key)
    ensures k !in AsMap(hs)
  {
    AsMapKeys(hs);
    if k in AsMap(hs) {
      var i :| 0 <= i < |hs| && hs[i].key == k;
      if i > 0 { StrLessTransitive(k, hs[0].key, hs[i].key); }
      StrLessIrreflexive(k);
    }
  }

  /** In a sorted list the first key does not occur again. */
  lemma HeadKeyUnique(hs: seq<Field>)
    requires Sorted(hs) && hs != []
    ensures hs[0].key !in AsMap(hs[1..])
  {
    if hs[1..] != [] { BelowFirstAbsent(hs[1..], hs[0].key); }
  }

  /** header(key) lookup: the value stored under key, None when absent. */
  function Lookup(hs: seq<Field>, k: string): (r: Option<string>)
    ensures r == if k in AsMap(hs) then Some(AsMap(hs)[k]) else None
  {
    if hs == [] then None
    else if hs[0].key == k then Some(hs[0].value)
    else Lookup(hs[1..], k)
  }

  /** Putting a key below every key of a sorted list keeps it sorted. */
  lemma PrependSorted(f: Field, hs: seq<Field>)
    requires Sorted(hs)
    requires forall j :: 0 <= j < |hs| ==> StrLess(f.key, hs[j].key)
    ensures Sorted([f] + hs)
    ensures AsMap([f] + hs) == AsMap(hs)[f.key := f.value]
  {
    var r := [f] + hs;
    assert r[1..] == hs;
    assert forall i, j :: 0 < i < j < |r| ==> r[i] == hs[i - 1] && r[j] == hs[j - 1];
  }

  /** headers_[key] = value: overwrite the key, or insert it at its place in key order. */
  function Insert(hs: seq<Field>, k: string, v: string): (r: seq<Field>)
    requires Sorted(hs)
    ensures Sorted(r)
    ensures AsMap(r) == AsMap(hs)[k := v]
    ensures forall i :: 0 <= i < |r| ==> r[i] == Field(k, v) || r[i] in hs
  {
    if hs == [] then [Field(k, v)]
    else if hs[0].key == k then
      HeadKeysAbove(hs);
      PrependSorted(Field(k, v), hs[1..]);
      [Field(k, v)] + hs[1..]
    else if StrLess(k, hs[0].key) then
      KeyBelowSorted(hs, k);
      PrependSorted(Field(k, v), hs);
      [Field(k, v)] + hs
    else
      var rest := Insert(hs[1..], k, v);
      InsertRestAbove(hs, k, v, rest);
      PrependSorted(hs[0], rest);
      [hs[0]] + rest
  }

  lemma HeadKeysAbove(hs: seq<Field>)
    requires Sorted(hs) && hs != []
    ensures Sorted(hs[1..])
    ensures forall j :: 0 <= j < |hs[1..]| ==> StrLess(hs[0].key, hs[1..][j].key)
    ensures hs == [hs[0]] + hs[1..]
  {
    assert forall j :: 0 <= j < |hs[1..]| ==> hs[1..][j] == hs[j + 1];
  }

  lemma KeyBelowSorted(hs: seq<Field>, k: string)
    requires Sorted(hs) && hs != [] && StrLess(k, hs[0].key)
    ensures forall j :: 0 <= j < |hs| ==> StrLess(k, hs[j].key)
  {
    forall j | 0 < j < |hs| ensures StrLess(k, hs[j].key) {
      StrLessTransitive(k, hs[0].key, hs[j].key);
    }
  }

  lemma InsertRestAbove(hs: seq<Field>, k: string, v: string, rest: seq<Field>)
    requires Sorted(hs) && hs != [] && hs[0].key != k && !StrLess(k, hs[0].key)
    requires forall i :: 0 <= i < |rest| ==> rest[i] == Field(k, v) || rest[i] in hs[1..]
    ensures forall j :: 0 <= j < |rest| ==> StrLess(hs[0].key, rest[j].key)
  {
    StrLessTrichotomy(k, hs[0].key);
    HeadKeysAbove(hs);
    forall j | 0 <= j < |rest| ensures StrLess(hs[0].key, rest[j].key) {
      if rest[j] != Field(k, v) {
        var m :| 0 <= m < |hs[1..]| && hs[1..][m] == rest[j];
      }
    }
  }

  /** headers_.erase(key): remove the key if present. */
  function Erase(hs: seq<Field>, k: string): (r: seq<Field>)
    requires Sorted(hs)
    ensures Sorted(r)
    ensures AsMap(r) == AsMap(hs) - {k}
    ensures forall i :: 0 <= i < |r| ==> r[i] in hs
  {
    if hs == [] then []
    else if hs[0].key == k then
      EraseHead(hs);
      hs[1..]
    else
      HeadKeysAbove(hs);
      var rest := Erase(hs[1..], k);
      EraseCons(hs, k, rest);
      [hs[0]] + rest
  }

  /** Keeping the first field in front of the erased tail erases the key from the whole list. */
  lemma EraseCons(hs: seq<Field>, k: string, rest: seq<Field>)
    requires Sorted(hs) && hs != [] && hs[0].key != k
    requires Sorted(rest) && AsMap(rest) == AsMap(hs[1..]) - {k}
    requires forall i :: 0 <= i < |rest| ==> rest[i] in hs[1..]
    ensures Sorted([hs[0]] + rest)
    ensures AsMap([hs[0]] + rest) == AsMap(hs) - {k}
    ensures forall i :: 0 <= i < |[hs[0]] + rest| ==> ([hs[0]] + rest)[i] in hs
  {
    SublistAbove(hs, rest);
    PrependSorted(hs[0], rest);
    UpdateAfterRemove(AsMap(hs[1..]), hs[0].key, hs[0].value, k);
    ConsMembers(hs, rest);
  }

  /** Binding one key and removing another commute. */
  lemma UpdateAfterRemove(m: map<string, string>, a: string, v: string, k: string)
    requires a != k
    ensures (m - {k})[a := v] == m[a := v] - {k}
  {
  }

  /** The first field followed by fields of the tail are all fields of the list. */
  lemma ConsMembers(hs: seq<Field>, rest: seq<Field>)
    requires hs != []
    requires forall i :: 0 <= i < |rest| ==> rest[i] in hs[1..]
    ensures forall i :: 0 <= i < |[hs[0]] + rest| ==> ([hs[0]] + rest)[i] in hs
  {
    var r := [hs[0]] + rest;
    forall i | 0 <= i < |r| ensures r[i] in hs {
      if i > 0 {
        assert r[i] == rest[i - 1];
        var m :| 0 <= m < |hs[1..]| && hs[1..][m] == rest[i - 1];
        assert hs[m + 1] == rest[i - 1];
      }
    }
  }

  /** Dropping the first field of a sorted list removes exactly its key. */
  lemma EraseHead(hs: seq<Field>)
    requires Sorted(hs) && hs != []
    ensures Sorted(hs[1..])
    ensures AsMap(hs[1..]) == AsMap(hs) - {hs[0].key}
    ensures forall i :: 0 <= i < |hs[1..]| ==> hs[1..][i] in hs
  {
    HeadKeyUnique(hs);
    HeadKeysAbove(hs);
    assert AsMap(hs[1..]) - {hs[0].key} == AsMap(hs[1..]);
  }

  /** Fields drawn from the tail of a sorted list all lie above its first key. */
  lemma SublistAbove(hs: seq<Field>, rest: seq<Field>)
    requires Sorted(hs) && hs != []
    requires forall i :: 0 <= i < |rest| ==> rest[i] in hs[1..]
    ensures forall j :: 0 <= j < |rest| ==> StrLess(hs[0].key, rest[j].key)
  {
    forall j | 0 <= j < |rest| ensures StrLess(hs[0].key, rest[j].key) {
      var m :| 0 <= m < |hs[1..]| && hs[1..][m] == rest[j];
      assert hs[m + 1] == rest[j];
    }
  }

  /** Inserting a key above every existing key appends it. */
  lemma {:induction false} InsertAbove(hs: seq<Field>, k: string, v: string)
    requires Sorted(hs)
    requires forall i :: 0 <= i < |hs| ==> StrLess(hs[i].key, k)
    ensures Insert(hs, k, v) == hs + [Field(k, v)]
  {
    if hs != [] {
      StrLessTrichotomy(k, hs[0].key);
      InsertAbove(hs[1..], k, v);
      assert [hs[0]] + (hs[1..] + [Field(k, v)]) == hs + [Field(k, v)];
    }
  }

  /** Re-inserting a binding that is already there changes nothing. */
  lemma {:induction false} InsertPresent(hs: seq<Field>, k: string, v: string)
    requires Sorted(hs) && Lookup(hs, k) == Some(v)
    ensures Insert(hs, k, v) == hs
  {
    if hs[0].key != k {
      if StrLess(k, hs[0].key) {
        BelowFirstAbsent(hs, k);
      } else {
        InsertPresent(hs[1..], k, v);
      }
    } else {
      assert [Field(k, v)] + hs[1..] == hs;
    }
  }

  /** Inserting overwrites exactly one key: every other lookup is unchanged. */
  lemma InsertOthersUnchanged(hs: seq<Field>, k: string, v: string, other: string)
    requires Sorted(hs)
    ensures Lookup(Insert(hs, k, v), k) == Some(v)
    ensures other != k ==> Lookup(Insert(hs, k, v), other) == Lookup(hs, other)
  {
  }

  /** Erasing removes exactly one key: every other lookup is unchanged. */
  lemma EraseOthersUnchanged(hs: seq<Field>, k: string, other: string)
    requires Sorted(hs)
    ensures Lookup(Erase(hs, k), k) == None
    ensures other != k ==> Lookup(Erase(hs, k), other) == Lookup(hs, other)
  {
  }
}
