/**
 * Small value types and string helpers shared by the PTO model: the
 * optional value and the success/error result that the server actions
 * return instead of throwing, and the few JavaScript string operations
 * the core relies on (toLowerCase, trim, startsWith, number formatting).
 */
module Common {

  datatype Option<T> = None | Some(value: T)

  datatype Result<T, E> = Ok(value: T) | Err(error: E)

  /** `{ success: true }` or `{ success: false, error }`, as the server actions return. */
  datatype Outcome<E> = Pass | Fail(error: E)

  /** JavaScript truthiness of an optional string: `undefined` and "" are falsy. */
  predicate Truthy(s: Option<string>)
  {
    s.Some? && s.value != ""
  }

  /** `s || fallback` for an optional string. */
  function OrElse(s: Option<string>, fallback: string): string
  {
    if Truthy(s) then s.value else fallback
  }

  function LowerChar(c: char): char
  {
    if 'A' <= c <= 'Z' then (c as int - 'A' as int + 'a' as int) as char else c
  }

  /** `String.prototype.toLowerCase`, restricted to the ASCII letters. */
  function ToLower(s: string): (r: string)
    ensures |r| == |s|
    ensures forall i :: 0 <= i < |s| ==> r[i] == LowerChar(s[i])
  {
    if s == [] then [] else [LowerChar(s[0])] + ToLower(s[1..])
  }

  /** No capital letter survives lower-casing. */
  lemma NoCapitalsLeft(s: string)
    ensures forall i :: 0 <= i < |s| ==> !('A' <= ToLower(s)[i] <= 'Z')
  {
  }

  /** Lower-casing twice is lower-casing once. */
  lemma {:induction false} LowerTwice(s: string)
    ensures ToLower(ToLower(s)) == ToLower(s)
  {
    if s != [] {
      LowerTwice(s[1..]);
      assert ToLower(s)[1..] == ToLower(s[1..]);
    }
  }

  predicate StartsWith(s: string, prefix: string)
  {
    |prefix| <= |s| && s[..|prefix|] == prefix
  }

  predicate EndsWith(s: string, suffix: string)
  {
    |suffix| <= |s| && s[|s| - |suffix|..] == suffix
  }

  /**
   * The characters `String.prototype.trim` removes: the white space of
   * section 12.2 of ECMA-262 (tab, vertical tab, form feed, space, no-break
   * space, byte order mark and the other space separators of Unicode) and
   * the line terminators of section 12.3 (line feed, carriage return, line
   * and paragraph separator).
   */
  predicate IsSpace(c: char)
  {
    || c == '\t' || c == '\U{000B}' || c == '\U{000C}' || c == ' ' || c == '\U{00A0}' || c == '\U{FEFF}'
    || c == '\U{1680}' || '\U{2000}' <= c <= '\U{200A}' || c == '\U{202F}' || c == '\U{205F}' || c == '\U{3000}'
    || c == '\n' || c == '\r' || c == '\U{2028}' || c == '\U{2029}'
  }

  /** Drops leading white space; the result is a suffix of `s`. */
  function TrimStart(s: string): (r: string)
    ensures |r| <= |s| && r == s[|s| - |r|..]
    ensures r == [] || !IsSpace(r[0])
    ensures forall i :: 0 <= i < |s| - |r| ==> IsSpace(s[i])
  {
    if s != [] && IsSpace(s[0]) then TrimStart(s[1..]) else s
  }

  /** Drops trailing white space; the result is a prefix of `s`. */
  function TrimEnd(s: string): (r: string)
    ensures |r| <= |s| && r == s[..|r|]
    ensures r == [] || !IsSpace(r[|r| - 1])
    ensures forall i :: |r| <= i < |s| ==> IsSpace(s[i])
  {
    if s != [] && IsSpace(s[|s| - 1]) then TrimEnd(s[..|s| - 1]) else s
  }

  /** `String.prototype.trim`. */
  function Trim(s: string): (r: string)
    ensures r == [] || (!IsSpace(r[0]) && !IsSpace(r[|r| - 1]))
  {
    var t := TrimStart(s);
    var r := TrimEnd(t);
    assert r != [] ==> r[0] == t[0];
    r
  }

  /**
   * Trimming keeps a contiguous middle of the input: everything before it and
   * everything after it is white space.
   */
  lemma TrimSlice(s: string) returns (i: nat, j: nat)
    ensures i <= j <= |s| && Trim(s) == s[i..j]
    ensures forall k :: 0 <= k < i ==> IsSpace(s[k])
    ensures forall k :: j <= k < |s| ==> IsSpace(s[k])
  {
    var t := TrimStart(s);
    var e := TrimEnd(t);
    i := |s| - |t|;
    j := i + |e|;
    assert Trim(s) == e;
    assert s[i..][..|e|] == s[i..j];
    forall k | j <= k < |s|
      ensures IsSpace(s[k])
    {
      assert s[i..][k - i] == s[k];
    }
  }

  /** A string with no white space at either end. */
  predicate Trimmed(s: string)
  {
    s != [] && !IsSpace(s[0]) && !IsSpace(s[|s| - 1])
  }

  /** Trimming removes exactly the white space at both ends, nothing inside. */
  lemma TrimIsIdentityOnTrimmed(s: string)
    requires Trimmed(s)
    ensures Trim(s) == s
  {
    assert TrimStart(s) == s;
    assert TrimEnd(s) == s;
  }

  lemma TrimOfAllSpace(s: string)
    requires forall i :: 0 <= i < |s| ==> IsSpace(s[i])
    ensures Trim(s) == []
  {
    assert TrimStart(s) == [];
  }

  /** Trimming a string with only white space after `t` gives the trimmed `t`. */
  lemma TrimDropsTrailingSpace(t: string, pad: string)
    requires forall i :: 0 <= i < |pad| ==> IsSpace(pad[i])
    ensures Trim(t + pad) == Trim(t)
  {
    TrimEndDropsPad(TrimStart(t + pad), pad, t);
  }

  lemma {:induction false} TrimEndDropsPad(u: string, pad: string, t: string)
    requires forall i :: 0 <= i < |pad| ==> IsSpace(pad[i])
    requires u == TrimStart(t + pad)
    ensures TrimEnd(u) == TrimEnd(TrimStart(t))
    decreases |t|
  {
    if t != [] && IsSpace(t[0]) {
      assert (t + pad)[1..] == t[1..] + pad;
      TrimEndDropsPad(u, pad, t[1..]);
    } else if t == [] {
      TrimOfAllSpace(pad);
      assert t + pad == pad;
    } else {
      assert TrimStart(t + pad) == t + pad;
      assert TrimStart(t) == t;
      TrimEndOfPadded(t, pad);
    }
  }

  lemma {:induction false} TrimEndOfPadded(t: string, pad: string)
    requires forall i :: 0 <= i < |pad| ==> IsSpace(pad[i])
    ensures TrimEnd(t + pad) == TrimEnd(t)
    decreases |pad|
  {
    if pad != [] {
      var p := pad[..|pad| - 1];
      assert (t + pad)[..|t + pad| - 1] == t + p;
      TrimEndOfPadded(t, p);
    } else {
      assert t + pad == t;
    }
  }

  function DigitChar(d: nat): char
    requires d < 10
  {
    ('0' as int + d) as char
  }

  /** Decimal rendering of a natural number, as a template literal prints it. */
  function NatToString(n: nat): (r: string)
    ensures r != []
    ensures forall i :: 0 <= i < |r| ==> '0' <= r[i] <= '9'
    decreases n
  {
    if n < 10 then [DigitChar(n)] else NatToString(n / 10) + [DigitChar(n % 10)]
  }

  function IntToString(i: int): string
  {
    if i < 0 then "-" + NatToString(-i) else NatToString(i)
  }
}
