// Shared vocabulary: optional values, results, sums over sequences, Python
// string operations used by the log parsers, and fixed-width unsigned
// arithmetic used by the C++ modules.
module Util {

  datatype Option<T> = None | Some(value: T)

  datatype Result<T, E> = Ok(value: T) | Err(error: E)

  // ---------------------------------------------------------------------
  // Fixed-width unsigned arithmetic (C/C++ unsigned types wrap around).

  const U16: nat := 0x1_0000
  const U32: nat := 0x1_0000_0000
  const U64: nat := 0x1_0000_0000_0000_0000

  /** Unsigned subtraction modulo `modulus`, as C performs it on uintN_t. */
  function WrapSub(a: nat, b: nat, modulus: nat): (r: nat)
    requires a < modulus && b < modulus
    ensures r < modulus
    ensures r + b == a || r + b == a + modulus
  {
    if a >= b then a - b else modulus + a - b
  }

  /** A `uint32_t` counter incremented by one. */
  function Inc32(x: int): (r: int)
    requires 0 <= x < U32
    ensures 0 <= r < U32
  {
    if x + 1 < U32 then x + 1 else 0
  }

  /** Incrementing a counter kept modulo 2^32 is counting modulo 2^32. */
  lemma Inc32Mod(n: nat)
    ensures Inc32(n % U32) == (n + 1) % U32
  {
    var q := n / U32;
    var m := n % U32;
    assert n == q * U32 + m;
    if m + 1 < U32 {
      assert n + 1 == q * U32 + (m + 1);
    } else {
      assert n + 1 == (q + 1) * U32 + 0;
    }
  }

  /** Python `int(x)` on a float: truncation toward zero. */
  function Trunc(x: real): (r: int)
    ensures x >= 0.0 ==> r as real <= x < r as real + 1.0
    ensures x < 0.0 ==> r as real - 1.0 < x <= r as real
  {
    if x >= 0.0 then x.Floor else -((-x).Floor)
  }

  // ---------------------------------------------------------------------
  // Sums.

  function SumReal(s: seq<real>): real
  {
    if s == [] then 0.0 else SumReal(s[..|s| - 1]) + s[|s| - 1]
  }

  function SumNat(s: seq<nat>): nat
  {
    if s == [] then 0 else SumNat(s[..|s| - 1]) + s[|s| - 1]
  }

  lemma {:induction false} SumNatAppend(a: seq<nat>, b: seq<nat>)
    ensures SumNat(a + b) == SumNat(a) + SumNat(b)
    decreases |b|
  {
    if b == [] {
      assert a + b == a;
    } else {
      assert (a + b)[..|a + b| - 1] == a + b[..|b| - 1];
      SumNatAppend(a, b[..|b| - 1]);
    }
  }

  // ---------------------------------------------------------------------
  // Maps with integer keys, traversed in ascending key order as a C++
  // std::map or a Python `sorted(d.keys())` does.

  predicate IsLeast(k: int, keys: set<int>)
  {
    k in keys && forall j :: j in keys ==> k <= j
  }

  lemma {:induction false} HasLeast(keys: set<int>)
    requires keys != {}
    ensures exists k :: IsLeast(k, keys)
    decreases |keys|
  {
    var x := PickKey(keys);
    if keys == {x} {
      assert IsLeast(x, keys);
    } else {
      var rest := keys - {x};
      HasLeast(rest);
      var m :| IsLeast(m, rest);
      var k := if x < m then x else m;
      forall j | j in keys ensures k <= j {
        if j != x { assert j in rest; }
      }
      assert IsLeast(k, keys);
    }
  }

  lemma NonEmptyHasElement(keys: set<int>)
    requires keys != {}
    ensures exists x :: x in keys
  {
    if forall x :: x !in keys { assert false; }
  }

  ghost function PickKey(keys: set<int>): (x: int)
    requires keys != {}
    ensures x in keys
  {
    NonEmptyHasElement(keys);
    var x :| x in keys; x
  }

  function MinKey(keys: set<int>): (k: int)
    requires keys != {}
    ensures IsLeast(k, keys)
  {
    HasLeast(keys);
    var x :| IsLeast(x, keys);
    x
  }

  /** The lowest index whose element satisfies p; |s| when none does. */
  function FirstWhere<T>(s: seq<T>, p: T -> bool): (i: nat)
    ensures i <= |s|
    ensures i < |s| ==> p(s[i])
    ensures forall j :: 0 <= j < i ==> !p(s[j])
  {
    if s == [] then 0
    else if p(s[0]) then 0
    else 1 + FirstWhere(s[1..], p)
  }

  /** An index satisfying p with no earlier one satisfying it is the first. */
  lemma {:induction false} FirstWhereUnique<T>(s: seq<T>, p: T -> bool, i: nat)
    requires i <= |s| && (i < |s| ==> p(s[i]))
    requires forall j :: 0 <= j < i ==> !p(s[j])
    ensures FirstWhere(s, p) == i
  {
    if i > 0 {
      assert !p(s[0]);
      FirstWhereUnique(s[1..], p, i - 1);
    }
  }

  /** The dictionary `d` built by `d[k] = v if k not in d else max(d[k], v)`
      over the pairs in order. */
  function MaxPerKey(pairs: seq<(int, int)>): map<int, int>
  {
    if pairs == [] then map[]
    else
      var m := MaxPerKey(pairs[..|pairs| - 1]);
      var (k, v) := pairs[|pairs| - 1];
      if k !in m then m[k := v] else m[k := if m[k] >= v then m[k] else v]
  }

  /** One more pair: its key is added, or its stored value raised to it. */
  lemma MaxPerKeySnoc(pairs: seq<(int, int)>, k: int, v: int)
    ensures var m := MaxPerKey(pairs);
      MaxPerKey(pairs + [(k, v)]) == if k !in m then m[k := v] else m[k := if m[k] >= v then m[k] else v]
  {
    assert (pairs + [(k, v)])[..|pairs|] == pairs;
  }

  /** The dictionary has a key for each key seen, holding the largest value
      seen with it. */
  lemma {:induction false} MaxPerKeyIsMax(pairs: seq<(int, int)>)
    ensures forall i :: 0 <= i < |pairs| ==> pairs[i].0 in MaxPerKey(pairs)
    ensures forall i :: 0 <= i < |pairs| ==> pairs[i].1 <= MaxPerKey(pairs)[pairs[i].0]
    ensures forall k :: k in MaxPerKey(pairs) ==>
      exists i :: 0 <= i < |pairs| && pairs[i].0 == k && pairs[i].1 == MaxPerKey(pairs)[k]
  {
    if pairs != [] {
      var init := pairs[..|pairs| - 1];
      MaxPerKeyIsMax(init);
      assert forall i :: 0 <= i < |init| ==> init[i] == pairs[i];
    }
  }

  predicate StrictlyAscending(s: seq<int>)
  {
    forall i, j :: 0 <= i < j < |s| ==> s[i] < s[j]
  }

  /** The keys of a set in ascending order. */
  function SortedKeys(keys: set<int>): (s: seq<int>)
    ensures StrictlyAscending(s)
    ensures forall k :: k in keys <==> k in s
    ensures |s| == |keys|
    decreases |keys|
  {
    if keys == {} then []
    else
      var m := MinKey(keys);
      var rest := SortedKeys(keys - {m});
      assert forall k :: k in rest ==> m < k;
      [m] + rest
  }

  // ---------------------------------------------------------------------
  // Python string operations on `str` values (modelled as seq<char>).

  /** Python `pat in s`: substring test. */
  predicate Contains(s: string, pat: string)
    decreases |s|
  {
    pat <= s || (|s| > 0 && Contains(s[1..], pat))
  }

  /** Python `s.split(sep)` with a one-character separator: empty parts are kept. */
  function Split(s: string, sep: char): (parts: seq<string>)
    ensures |parts| >= 1
    ensures forall i :: 0 <= i < |parts| ==> sep !in parts[i]
    decreases |s|
  {
    if |s| == 0 then [""]
    else if s[0] == sep then [""] + Split(s[1..], sep)
    else
      var rest := Split(s[1..], sep);
      [[s[0]] + rest[0]] + rest[1..]
  }

  /** Python `sep.join(parts)`. */
  function Join(parts: seq<string>, sep: char): string
    decreases |parts|
  {
    if |parts| == 0 then ""
    else if |parts| == 1 then parts[0]
    else parts[0] + [sep] + Join(parts[1..], sep)
  }

  /** Joining the parts of a split gives back the original text. */
  lemma {:induction false} JoinSplit(s: string, sep: char)
    ensures Join(Split(s, sep), sep) == s
    decreases |s|
  {
    if |s| == 0 {
    } else if s[0] == sep {
      JoinSplit(s[1..], sep);
      var rest := Split(s[1..], sep);
      assert Split(s, sep) == [""] + rest;
      assert Join([""] + rest, sep) == "" + [sep] + Join(rest, sep);
    } else {
      JoinSplit(s[1..], sep);
      var rest := Split(s[1..], sep);
      var parts := [[s[0]] + rest[0]] + rest[1..];
      assert Split(s, sep) == parts;
      if |rest| == 1 {
        assert Join(parts, sep) == [s[0]] + rest[0];
      } else {
        assert parts[1..] == rest[1..];
        assert Join(parts, sep) == [s[0]] + rest[0] + [sep] + Join(rest[1..], sep);
        assert Join(rest, sep) == rest[0] + [sep] + Join(rest[1..], sep);
      }
    }
  }

  /** The ASCII characters for which Python's `str.isspace` holds. */
  predicate IsSpace(c: char)
  {
    c == ' ' || (9 <= c as int <= 13) || (28 <= c as int <= 31)
  }

  function StripLeft(s: string): (r: string)
    ensures |r| <= |s| && r == s[|s| - |r|..]
    ensures |r| > 0 ==> !IsSpace(r[0])
    ensures forall i :: 0 <= i < |s| - |r| ==> IsSpace(s[i])
    decreases |s|
  {
    if |s| > 0 && IsSpace(s[0]) then StripLeft(s[1..]) else s
  }

  function StripRight(s: string): (r: string)
    ensures |r| <= |s| && r == s[..|r|]
    ensures |r| > 0 ==> !IsSpace(r[|r| - 1])
    ensures forall i :: |r| <= i < |s| ==> IsSpace(s[i])
    decreases |s|
  {
    if |s| > 0 && IsSpace(s[|s| - 1]) then StripRight(s[..|s| - 1]) else s
  }

  /** Python `s.strip()`: removes leading and trailing whitespace. */
  function Strip(s: string): string
  {
    StripRight(StripLeft(s))
  }
}
