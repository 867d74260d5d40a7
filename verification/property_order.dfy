/**
 * The order in which `Object.entries` lists the string keys of an ordinary
 * object (OrdinaryOwnPropertyKeys, section 10.1.11.1 of ECMA-262): first the
 * keys that are array indices, in ascending numeric order, then every other
 * key in the order it was created.
 */
module PropertyOrder {

  predicate IsDigit(c: char)
  {
    '0' <= c <= '9'
  }

  predicate AllDigits(s: string)
  {
    forall i :: 0 <= i < |s| ==> IsDigit(s[i])
  }

  /** The number a string of decimal digits denotes. */
  function DecimalValue(s: string): nat
    requires AllDigits(s)
  {
    if s == [] then 0 else DecimalValue(s[..|s| - 1]) * 10 + (s[|s| - 1] as int - '0' as int)
  }

  /** The largest array index, 2^32 - 2. */
  const MaxArrayIndex: nat := 0xFFFF_FFFE

  /**
   * An array index: the canonical decimal form of an integer from 0 to
   * 2^32 - 2 (digits only, no leading zero except in "0" itself).
   */
  predicate IsArrayIndex(s: string)
  {
    && |s| >= 1
    && AllDigits(s)
    && (s[0] != '0' || |s| == 1)
    && DecimalValue(s) <= MaxArrayIndex
  }

  function Index(s: string): nat
    requires IsArrayIndex(s)
  {
    DecimalValue(s)
  }

  /** All keys are array indices, in ascending order of their values. */
  predicate SortedIndices(ks: seq<string>)
  {
    && (forall i :: 0 <= i < |ks| ==> IsArrayIndex(ks[i]))
    && (forall i, j :: 0 <= i < j < |ks| ==> Index(ks[i]) <= Index(ks[j]))
  }

  /** The keys of `ks` that are array indices, in their order in `ks`. */
  function IndexKeys(ks: seq<string>): (r: seq<string>)
    ensures forall i :: 0 <= i < |r| ==> IsArrayIndex(r[i])
  {
    if ks == [] then []
    else IndexKeys(ks[..|ks| - 1]) + (if IsArrayIndex(ks[|ks| - 1]) then [ks[|ks| - 1]] else [])
  }

  /** The keys of `ks` that are not array indices, in their order in `ks`. */
  function OtherKeys(ks: seq<string>): (r: seq<string>)
    ensures forall i :: 0 <= i < |r| ==> !IsArrayIndex(r[i])
  {
    if ks == [] then []
    else OtherKeys(ks[..|ks| - 1]) + (if IsArrayIndex(ks[|ks| - 1]) then [] else [ks[|ks| - 1]])
  }

  /** Every key goes to exactly one of the two parts. */
  lemma {:induction false} PartsPartition(ks: seq<string>)
    ensures multiset(IndexKeys(ks)) + multiset(OtherKeys(ks)) == multiset(ks)
  {
    if ks != [] {
      var init := ks[..|ks| - 1];
      PartsPartition(init);
      assert ks == init + [ks[|ks| - 1]];
    }
  }

  lemma {:induction false} OtherKeysAppend(a: seq<string>, b: seq<string>)
    ensures OtherKeys(a + b) == OtherKeys(a) + OtherKeys(b)
  {
    if b == [] {
      assert a + b == a;
    } else {
      var init := b[..|b| - 1];
      assert (a + b)[..|a + b| - 1] == a + init;
      OtherKeysAppend(a, init);
    }
  }

  lemma {:induction false} OtherKeysOfIndices(ks: seq<string>)
    requires forall i :: 0 <= i < |ks| ==> IsArrayIndex(ks[i])
    ensures OtherKeys(ks) == []
  {
    if ks != [] {
      OtherKeysOfIndices(ks[..|ks| - 1]);
    }
  }

  lemma {:induction false} OtherKeysOfOthers(ks: seq<string>)
    requires forall i :: 0 <= i < |ks| ==> !IsArrayIndex(ks[i])
    ensures OtherKeys(ks) == ks
  {
    if ks != [] {
      var init := ks[..|ks| - 1];
      OtherKeysOfOthers(init);
      assert ks == init + [ks[|ks| - 1]];
    }
  }

  lemma {:induction false} IndexKeysOfOthers(ks: seq<string>)
    requires forall i :: 0 <= i < |ks| ==> !IsArrayIndex(ks[i])
    ensures IndexKeys(ks) == []
  {
    if ks != [] {
      IndexKeysOfOthers(ks[..|ks| - 1]);
    }
  }

  /** Places an array index into an ascending list of array indices. */
  function InsertIndex(x: string, ks: seq<string>): (r: seq<string>)
    requires IsArrayIndex(x) && SortedIndices(ks)
    ensures SortedIndices(r)
    ensures multiset(r) == multiset(ks) + multiset{x}
  {
    if ks == [] then [x]
    else if Index(x) <= Index(ks[0]) then
      assert forall i, j :: 0 <= i < j < |[x] + ks| ==> Index(([x] + ks)[i]) <= Index(([x] + ks)[j]) by {
        forall i, j | 0 <= i < j < |[x] + ks|
          ensures Index(([x] + ks)[i]) <= Index(([x] + ks)[j])
        {
          if i > 0 {
            assert ([x] + ks)[i] == ks[i - 1];
          }
          assert ([x] + ks)[j] == ks[j - 1];
        }
      }
      [x] + ks
    else
      var rest := InsertIndex(x, ks[1..]);
      InsertAfterHead(x, ks, rest);
      [ks[0]] + rest
  }

  /** Putting the smallest key in front of an ascending list of larger keys keeps it ascending. */
  lemma InsertAfterHead(x: string, ks: seq<string>, rest: seq<string>)
    requires IsArrayIndex(x) && SortedIndices(ks) && ks != [] && Index(ks[0]) < Index(x)
    requires SortedIndices(rest) && multiset(rest) == multiset(ks[1..]) + multiset{x}
    ensures SortedIndices([ks[0]] + rest)
    ensures multiset([ks[0]] + rest) == multiset(ks) + multiset{x}
  {
    assert ks == [ks[0]] + ks[1..];
    forall i | 0 <= i < |rest|
      ensures Index(ks[0]) <= Index(rest[i])
    {
      assert rest[i] in multiset(rest);
      if rest[i] != x {
        assert rest[i] in multiset(ks[1..]);
        var j :| 0 <= j < |ks[1..]| && ks[1..][j] == rest[i];
        assert ks[j + 1] == rest[i];
      }
    }
    var r := [ks[0]] + rest;
    forall i, j | 0 <= i < j < |r|
      ensures Index(r[i]) <= Index(r[j])
    {
      assert r[j] == rest[j - 1];
      if i > 0 {
        assert r[i] == rest[i - 1];
      }
    }
  }

  /** The array indices of `ks` in ascending numeric order. */
  function SortIndices(ks: seq<string>): (r: seq<string>)
    requires forall i :: 0 <= i < |ks| ==> IsArrayIndex(ks[i])
    ensures SortedIndices(r)
    ensures multiset(r) == multiset(ks)
  {
    if ks == [] then []
    else
      assert ks == [ks[0]] + ks[1..];
      InsertIndex(ks[0], SortIndices(ks[1..]))
  }

  /**
   * `Object.entries` on an object whose keys were created in the order
   * `keys`: a permutation that puts the array indices first, in ascending
   * numeric order, and keeps every other key in creation order.
   */
  function EntriesOrder(keys: seq<string>): (r: seq<string>)
    ensures multiset(r) == multiset(keys)
    ensures forall i, j :: 0 <= i < j < |r| && IsArrayIndex(r[j]) ==> IsArrayIndex(r[i])
    ensures forall i, j :: 0 <= i < j < |r| && IsArrayIndex(r[i]) && IsArrayIndex(r[j]) ==> Index(r[i]) <= Index(r[j])
    ensures OtherKeys(r) == OtherKeys(keys)
  {
    var indices, others := SortIndices(IndexKeys(keys)), OtherKeys(keys);
    PartsPartition(keys);
    OtherKeysAppend(indices, others);
    OtherKeysOfIndices(indices);
    OtherKeysOfOthers(others);
    indices + others
  }

  /** Without an index-like key, `Object.entries` lists the keys in creation order. */
  lemma NoIndicesKeepCreationOrder(keys: seq<string>)
    requires forall i :: 0 <= i < |keys| ==> !IsArrayIndex(keys[i])
    ensures EntriesOrder(keys) == keys
  {
    OtherKeysOfOthers(keys);
    IndexKeysOfOthers(keys);
  }

  lemma ExampleKeys()
    ensures !IsArrayIndex("Sales")
    ensures IsArrayIndex("2024") && Index("2024") == 2024
    ensures IsArrayIndex("7") && Index("7") == 7
  {
    assert !IsDigit("Sales"[0]);
    assert "2024"[..3] == "202" && "202"[..2] == "20" && "20"[..1] == "2" && "2"[..0] == "";
    assert DecimalValue("2") == 2 && DecimalValue("20") == 20 && DecimalValue("202") == 202;
    assert "7"[..0] == "";
  }

  lemma ExampleParts()
    ensures IndexKeys(["Sales", "2024", "7"]) == ["2024", "7"]
    ensures OtherKeys(["Sales", "2024", "7"]) == ["Sales"]
  {
    ExampleKeys();
    var ks, k2, k1 := ["Sales", "2024", "7"], ["Sales", "2024"], ["Sales"];
    assert ks[..2] == k2 && k2[..1] == k1 && k1[..0] == [];
    assert IndexKeys(k1) == [] && OtherKeys(k1) == ["Sales"];
    assert IndexKeys(k2) == ["2024"] && OtherKeys(k2) == ["Sales"];
  }

  lemma ExampleSort()
    ensures IsArrayIndex("2024") && IsArrayIndex("7") && SortIndices(["2024", "7"]) == ["7", "2024"]
  {
    ExampleKeys();
    assert ["2024", "7"][1..] == ["7"] && ["7"][1..] == [];
    assert SortIndices(["7"]) == InsertIndex("7", []) == ["7"];
    assert Index("7") < Index("2024");
    assert InsertIndex("2024", ["7"]) == ["7"] + InsertIndex("2024", []) == ["7", "2024"];
  }

  /** Groups created as "Sales", "2024", "7" are listed as "7", "2024", "Sales". */
  lemma IndexKeysListedFirst()
    ensures EntriesOrder(["Sales", "2024", "7"]) == ["7", "2024", "Sales"]
  {
    ExampleParts();
    ExampleSort();
  }
}
