// The Aho-Corasick matcher (`aho_corasick.cc`): a trie of the keywords
// over the letters a-z, completed at the root, with failure links built
// breadth first and an output set per state; the text is then run
// through the machine and each position is recorded once per keyword
// that is output there.  The machine lives in three fixed-size tables
// the build overwrites: `g` (goto, -1 for none), `f` (failure) and
// `out` (the output masks, here sets of keyword indices).
module AhoCorasick {

  /** `MAX_STATES`: rows of the tables, less the spare one. */
  const MaxStates: int := 6 * 50 + 10
  /** `MAX_CHARS`: the letters a-z; the tables have one spare column. */
  const MaxChars: int := 26
  /** Keyword `i` is bit `1 << i` of an `int` mask. */
  const MaxWords: int := 31

  predicate Lower(s: string)
  {
    forall i :: 0 <= i < |s| ==> 'a' <= s[i] <= 'z'
  }

  function Letter(c: char): int
  {
    c as int - 'a' as int
  }

  /** The letter `l` ends with, -1 for the empty string. */
  function Last(l: string): int
  {
    if |l| == 0 then -1 else Letter(l[|l| - 1])
  }

  function Char(ch: int): char
    requires 0 <= ch < MaxChars
  {
    ('a' as int + ch) as char
  }

  predicate IsSuffix(a: string, b: string)
  {
    |a| <= |b| && b[|b| - |a|..] == a
  }

  predicate ProperSuffix(a: string, b: string)
  {
    |a| < |b| && IsSuffix(a, b)
  }

  lemma SuffixTrans(a: string, b: string, c: string)
    requires IsSuffix(a, b) && IsSuffix(b, c)
    ensures IsSuffix(a, c)
  {
    assert c[|c| - |a|..] == c[|c| - |b|..][|b| - |a|..];
  }

  lemma SuffixAppend(a: string, b: string, x: char)
    requires IsSuffix(a, b)
    ensures IsSuffix(a + [x], b + [x])
  {
    assert (b + [x])[|b| + 1 - (|a| + 1)..] == b[|b| - |a|..] + [x];
  }

  function TotalLength(ws: seq<string>): nat
  {
    if ws == [] then 0 else TotalLength(ws[..|ws| - 1]) + |ws[|ws| - 1]|
  }

  lemma {:induction false} TotalLengthPrefix(ws: seq<string>, i: nat)
    requires i <= |ws|
    ensures TotalLength(ws[..i]) <= TotalLength(ws)
    decreases |ws|
  {
    if i < |ws| {
      assert ws[..|ws| - 1][..i] == ws[..i];
      TotalLengthPrefix(ws[..|ws| - 1], i);
    } else {
      assert ws[..i] == ws;
    }
  }

  /** The non-empty prefixes of the keywords. */
  ghost function Prefixes(ws: seq<string>): set<string>
  {
    set x, m | 0 <= x < |ws| && 1 <= m <= |ws[x]| :: ws[x][..m]
  }

  /** The non-empty prefixes of `w` up to length `j`. */
  ghost function PrefixesUpTo(w: string, j: nat): set<string>
  {
    set m | 1 <= m <= j && m <= |w| :: w[..m]
  }

  lemma PrefixesUpToStep(w: string, j: nat)
    requires j < |w|
    ensures PrefixesUpTo(w, j + 1) == PrefixesUpTo(w, j) + {w[..j + 1]}
  {
  }

  lemma PrefixesStep(ws: seq<string>, i: nat)
    requires i < |ws|
    ensures Prefixes(ws[..i + 1]) == Prefixes(ws[..i]) + PrefixesUpTo(ws[i], |ws[i]|)
  {
    var a := Prefixes(ws[..i + 1]);
    var b := Prefixes(ws[..i]) + PrefixesUpTo(ws[i], |ws[i]|);
    forall p | p in a
      ensures p in b
    {
      var x, m :| 0 <= x < i + 1 && 1 <= m <= |ws[..i + 1][x]| && p == ws[..i + 1][x][..m];
      if x < i {
        assert ws[..i][x] == ws[x];
      }
    }
    forall p | p in b
      ensures p in a
    {
      if p in Prefixes(ws[..i]) {
        var x, m :| 0 <= x < i && 1 <= m <= |ws[..i][x]| && p == ws[..i][x][..m];
        assert ws[..i + 1][x] == ws[x];
      } else {
        var m :| 1 <= m <= |ws[i]| && p == ws[i][..m];
        assert ws[..i + 1][i] == ws[i];
      }
    }
  }

  /** The keywords `l` ends with. */
  ghost function Ends(ws: seq<string>, l: string): set<int>
  {
    set x | 0 <= x < |ws| && IsSuffix(ws[x], l)
  }

  lemma EndsMono(ws: seq<string>, a: string, b: string)
    requires IsSuffix(a, b)
    ensures Ends(ws, a) <= Ends(ws, b)
  {
    forall x | x in Ends(ws, a)
      ensures x in Ends(ws, b)
    {
      SuffixTrans(ws[x], a, b);
    }
  }

  /** The non-empty keywords `l` ends with. */
  ghost function Matches(ws: seq<string>, l: string): set<int>
  {
    set x | 0 <= x < |ws| && ws[x] != [] && IsSuffix(ws[x], l)
  }

  /** Two suffixes of the same string: the shorter ends the longer. */
  lemma SuffixOfSuffix(a: string, b: string, w: string)
    requires IsSuffix(a, w) && IsSuffix(b, w) && |a| <= |b|
    ensures IsSuffix(a, b)
  {
    assert b[|b| - |a|..] == w[|w| - |a|..];
  }

  /** A suffix of one string followed by a letter, the same letter
      following a suffix of the other. */
  lemma SuffixDrop(a: string, x: char, b: string, y: char)
    requires IsSuffix(a + [x], b + [y])
    ensures x == y && IsSuffix(a, b)
  {
    var bb := b + [y];
    assert bb[|bb| - |a| - 1..] == b[|b| - |a|..] + [y];
    assert (a + [x])[..|a|] == a && (a + [x])[|a|] == x;
    assert (b[|b| - |a|..] + [y])[..|a|] == b[|b| - |a|..];
  }

  /** The proper suffixes of a non-empty string are the suffixes of its
      tail. */
  lemma TailSuffix(a: string, b: string)
    requires |b| >= 1
    ensures ProperSuffix(a, b) <==> IsSuffix(a, b[1..])
  {
    if |a| < |b| {
      assert b[1..][|b| - 1 - |a|..] == b[|b| - |a|..];
    }
  }

  lemma TailSnoc(a: string, x: char)
    requires |a| >= 1
    ensures (a + [x])[1..] == a[1..] + [x]
  {
  }

  /** The strings of a sequence. */
  ghost function Elems(l: seq<string>): set<string>
  {
    set t | 0 <= t < |l| :: l[t]
  }

  lemma ElemsSnoc(l: seq<string>, x: string)
    ensures Elems(l + [x]) == Elems(l) + {x}
  {
    assert forall t :: 0 <= t < |l| ==> (l + [x])[t] == l[t];
    assert (l + [x])[|l|] == x;
  }

  lemma {:induction false} DistinctCard(l: seq<string>)
    requires forall a, b :: 0 <= a < b < |l| ==> l[a] != l[b]
    ensures |Elems(l)| == |l|
  {
    if l != [] {
      var n := |l| - 1;
      DistinctCard(l[..n]);
      assert Elems(l) == Elems(l[..n]) + {l[n]} by {
        assert l == l[..n] + [l[n]];
        ElemsSnoc(l[..n], l[n]);
      }
      assert l[n] !in Elems(l[..n]);
    }
  }

  /** The keywords `j < k` of output set `o`, each recording position `i`. */
  function Hits(o: set<int>, k: int, i: int): (r: seq<int>)
    ensures forall a :: 0 <= a < |r| ==> r[a] == i
  {
    if k <= 0 then [] else Hits(o, k - 1, i) + (if k - 1 in o then [i] else [])
  }

  /** The inner loop of `SearchWords()`: position `i` recorded once for
      each keyword `j < k` of output set `o`; nothing when `o` is empty. */
  method Collect(o: set<int>, k: int, i: int) returns (hits: seq<int>)
    ensures hits == Hits(o, k, i)
  {
    hits := [];
    if o == {} {
      NoHits(k, i);
      return;
    }
    var j := 0;
    while j < k
      invariant 0 <= j <= (if k < 0 then 0 else k) && hits == Hits(o, j, i)
    {
      if j in o {
        hits := hits + [i];
      }
      j := j + 1;
    }
    if k < 0 {
      assert Hits(o, j, i) == [] && Hits(o, k, i) == [];
    }
  }

  /** The keywords `j < k` of output set `o`. */
  function Bits(o: set<int>, k: int): set<int>
  {
    set j | 0 <= j < k && j in o
  }

  lemma {:induction false} HitsCount(o: set<int>, k: int, i: int)
    ensures |Hits(o, k, i)| == |Bits(o, k)|
  {
    if k > 0 {
      HitsCount(o, k - 1, i);
      if k - 1 in o {
        assert Bits(o, k) == Bits(o, k - 1) + {k - 1};
      } else {
        assert Bits(o, k) == Bits(o, k - 1);
      }
    } else {
      assert Bits(o, k) == {};
    }
  }


  /** States `0 .. n - 1` with strings `p` and parents `r`: the root has
      the empty string, and every other state extends its parent's by a
      letter. */
  ghost predicate PathsOk(p: seq<string>, r: seq<int>, n: int)
  {
    1 <= n <= MaxStates + 1 && |p| == n && |r| == n && p[0] == [] &&
    forall t {:trigger r[t]} :: 0 < t < n ==>
      0 <= r[t] < n && |p[t]| >= 1 && p[r[t]] == p[t][..|p[t]| - 1] && 'a' <= p[t][|p[t]| - 1] <= 'z'
  }

  /** A new state with parent `cur` and string `l`, one letter longer. */
  lemma PathsSnoc(p: seq<string>, r: seq<int>, cur: int, l: string)
    requires PathsOk(p, r, |p|) && |p| < MaxStates + 1 && 0 <= cur < |p|
    requires |l| >= 1 && l[..|l| - 1] == p[cur] && 'a' <= l[|l| - 1] <= 'z'
    ensures PathsOk(p + [l], r + [cur], |p| + 1)
  {
    var p1, r1 := p + [l], r + [cur];
    forall t | 0 < t < |p1|
      ensures 0 <= r1[t] < |p1| && |p1[t]| >= 1 && p1[r1[t]] == p1[t][..|p1[t]| - 1] && 'a' <= p1[t][|p1[t]| - 1] <= 'z'
    {
      if t < |p| {
        assert r1[t] == r[t] && p1[t] == p[t] && p1[r[t]] == p[r[t]];
      }
    }
  }

  /** The breadth-first queue `q` over the states `0 .. n - 1` with
      strings `p` and parents `r`, `popped` the states taken off it: the
      queue holds each state once, every state whose parent has been taken
      off is taken off or queued, the queue spans at most two consecutive
      depths in order, and every state no deeper than its front has had
      its parent taken off. */
  ghost predicate QueueOk(p: seq<string>, r: seq<int>, n: int, q: seq<int>, popped: set<int>)
  {
    PathsOk(p, r, n) &&
    0 in popped && (forall x :: x in popped ==> 0 <= x < n) &&
    (forall a :: 0 <= a < |q| ==> 0 < q[a] < n && q[a] !in popped) &&
    (forall a, b :: 0 <= a < b < |q| ==> q[a] != q[b]) &&
    (forall t {:trigger r[t]} :: 0 < t < n ==> (r[t] in popped <==> t in popped || t in q)) &&
    (forall a, b :: 0 <= a <= b < |q| ==> |p[q[a]]| <= |p[q[b]]| <= |p[q[a]]| + 1) &&
    (|q| > 0 ==> forall t :: 0 < t < n && |p[t]| <= |p[q[0]]| ==> r[t] in popped)
  }

  /** Every state but the root has a non-empty string. */
  lemma NonRoot(p: seq<string>, r: seq<int>, n: int)
    requires PathsOk(p, r, n)
    ensures forall x :: 0 < x < n ==> |p[x]| >= 1
  {
    forall x | 0 < x < n
      ensures |p[x]| >= 1
    {
      assert 0 <= r[x] < n;
    }
  }

  /** The children of the root, queued first. */
  lemma SeedOk(p: seq<string>, r: seq<int>, n: int, q: seq<int>)
    requires PathsOk(p, r, n)
    requires forall a :: 0 <= a < |q| ==> 0 < q[a] < n && r[q[a]] == 0
    requires forall a, b :: 0 <= a < b < |q| ==> q[a] != q[b]
    requires forall t :: 0 < t < n && r[t] == 0 ==> t in q
    ensures QueueOk(p, r, n, q, {0})
  {
    forall a | 0 <= a < |q|
      ensures |p[q[a]]| == 1
    {
      assert p[r[q[a]]] == [];
    }
    NonRoot(p, r, n);
    forall t | 0 < t < n && |p[t]| <= 1
      ensures r[t] == 0
    {
      assert 0 <= r[t] < n && p[r[t]] == [];
    }
  }

  /** Taking `s` off the front of the queue and queueing its children
      `kids` keeps the queue in order. */
  lemma QueueStep(p: seq<string>, r: seq<int>, n: int, s: int, q1: seq<int>, popped: set<int>, kids: seq<int>)
    requires QueueOk(p, r, n, [s] + q1, popped)
    requires forall a :: 0 <= a < |kids| ==> 0 < kids[a] < n && r[kids[a]] == s
    requires forall a, b :: 0 <= a < b < |kids| ==> kids[a] != kids[b]
    requires forall t :: 0 < t < n && r[t] == s ==> t in kids
    ensures QueueOk(p, r, n, q1 + kids, popped + {s})
  {
    StepDepths(p, r, n, s, q1, popped, kids);
    var q := q1 + kids;
    StepElems(p, r, n, s, q1, popped, kids, q);
    StepSeen(p, r, n, s, q1, popped, kids);
    StepOrder(p, r, n, s, q1, popped, kids, q);
    StepFront(p, r, n, s, q1, popped, kids, q);
  }

  /** The facts `StepDepths` establishes about the queue after `s` and
      the children `kids` of `s`. */
  ghost predicate Stepped(p: seq<string>, r: seq<int>, n: int, s: int, q1: seq<int>, popped: set<int>, kids: seq<int>)
  {
    |p| == n && |r| == n && 0 < s < n && s !in popped && r[s] in popped &&
    (forall a :: 0 <= a < |kids| ==> 0 < kids[a] < n && r[kids[a]] == s) &&
    (forall a :: 0 <= a < |q1| ==> 0 < q1[a] < n && q1[a] !in popped && q1[a] != s && r[q1[a]] in popped && |p[s]| <= |p[q1[a]]| <= |p[s]| + 1) &&
    (forall a, b :: 0 <= a < b < |q1| ==> q1[a] != q1[b] && |p[q1[a]]| <= |p[q1[b]]|) &&
    (forall a :: 0 <= a < |kids| ==> kids[a] !in popped && kids[a] != s && |p[kids[a]]| == |p[s]| + 1)
  }

  /** The rest of the queue after `s`: in range, not taken off, each
      once, no shallower than `s` and at most one deeper, in order; the
      children are one deeper. */
  lemma StepDepths(p: seq<string>, r: seq<int>, n: int, s: int, q1: seq<int>, popped: set<int>, kids: seq<int>)
    requires QueueOk(p, r, n, [s] + q1, popped)
    requires forall a :: 0 <= a < |kids| ==> 0 < kids[a] < n && r[kids[a]] == s
    ensures 0 < s < n && s !in popped && r[s] in popped
    ensures forall a :: 0 <= a < |q1| ==> 0 < q1[a] < n && q1[a] !in popped && q1[a] != s && r[q1[a]] in popped && |p[s]| <= |p[q1[a]]| <= |p[s]| + 1
    ensures forall a, b :: 0 <= a < b < |q1| ==> q1[a] != q1[b] && |p[q1[a]]| <= |p[q1[b]]|
    ensures forall a :: 0 <= a < |kids| ==> kids[a] !in popped && kids[a] != s && |p[kids[a]]| == |p[s]| + 1
    ensures Stepped(p, r, n, s, q1, popped, kids)
  {
    StepRest(p, r, n, s, q1, popped);
    StepPairs(p, r, n, s, q1, popped);
    StepKids(p, r, n, s, q1, popped, kids);
  }

  lemma StepRest(p: seq<string>, r: seq<int>, n: int, s: int, q1: seq<int>, popped: set<int>)
    requires QueueOk(p, r, n, [s] + q1, popped)
    ensures 0 < s < n && s !in popped && r[s] in popped
    ensures forall a :: 0 <= a < |q1| ==> 0 < q1[a] < n && q1[a] !in popped && q1[a] != s && r[q1[a]] in popped && |p[s]| <= |p[q1[a]]| <= |p[s]| + 1
  {
    var q0 := [s] + q1;
    assert q0[0] == s;
    forall a | 0 <= a < |q1|
      ensures 0 < q1[a] < n && q1[a] !in popped && q1[a] != s && r[q1[a]] in popped && |p[s]| <= |p[q1[a]]| <= |p[s]| + 1
    {
      assert q0[a + 1] == q1[a];
    }
  }

  lemma StepPairs(p: seq<string>, r: seq<int>, n: int, s: int, q1: seq<int>, popped: set<int>)
    requires QueueOk(p, r, n, [s] + q1, popped)
    ensures forall a, b :: 0 <= a < b < |q1| ==> q1[a] != q1[b] && 0 <= q1[a] < n && 0 <= q1[b] < n && |p[q1[a]]| <= |p[q1[b]]|
  {
    var q0 := [s] + q1;
    forall a, b | 0 <= a < b < |q1|
      ensures q1[a] != q1[b] && 0 <= q1[a] < n && 0 <= q1[b] < n && |p[q1[a]]| <= |p[q1[b]]|
    {
      assert q0[a + 1] == q1[a] && q0[b + 1] == q1[b];
      assert q0[a + 1] != q0[b + 1] && 0 < q0[a + 1] < n && 0 < q0[b + 1] < n;
      assert |p[q0[a + 1]]| <= |p[q0[b + 1]]|;
    }
  }

  lemma StepKids(p: seq<string>, r: seq<int>, n: int, s: int, q1: seq<int>, popped: set<int>, kids: seq<int>)
    requires QueueOk(p, r, n, [s] + q1, popped)
    requires forall a :: 0 <= a < |kids| ==> 0 < kids[a] < n && r[kids[a]] == s
    ensures forall a :: 0 <= a < |kids| ==> kids[a] !in popped && kids[a] != s && |p[kids[a]]| == |p[s]| + 1
  {
    var q0 := [s] + q1;
    assert q0[0] == s && s !in popped;
    forall a | 0 <= a < |kids|
      ensures kids[a] !in popped && kids[a] != s && |p[kids[a]]| == |p[s]| + 1
    {
      var t := kids[a];
      assert p[r[t]] == p[t][..|p[t]| - 1];
    }
  }

  lemma StepElems(p: seq<string>, r: seq<int>, n: int, s: int, q1: seq<int>, popped: set<int>, kids: seq<int>, q: seq<int>)
    requires q == q1 + kids && Stepped(p, r, n, s, q1, popped, kids)
    requires forall a, b :: 0 <= a < b < |kids| ==> kids[a] != kids[b]
    ensures forall a :: 0 <= a < |q| ==> 0 < q[a] < n && q[a] !in popped + {s}
    ensures forall a, b :: 0 <= a < b < |q| ==> q[a] != q[b]
  {
    forall a | 0 <= a < |q|
      ensures 0 < q[a] < n && q[a] !in popped + {s}
    {
      if a >= |q1| {
        assert q[a] == kids[a - |q1|];
      }
    }
    forall a, b | 0 <= a < b < |q|
      ensures q[a] != q[b]
    {
      if b < |q1| {
        assert q[a] == q1[a] && q[b] == q1[b];
      } else if a >= |q1| {
        assert q[a] == kids[a - |q1|] && q[b] == kids[b - |q1|];
      } else {
        assert q[a] == q1[a] && q[b] == kids[b - |q1|];
      }
    }
  }

  lemma StepSeen(p: seq<string>, r: seq<int>, n: int, s: int, q1: seq<int>, popped: set<int>, kids: seq<int>)
    requires QueueOk(p, r, n, [s] + q1, popped)
    requires forall a :: 0 <= a < |kids| ==> 0 < kids[a] < n && r[kids[a]] == s
    requires forall a, b :: 0 <= a < b < |kids| ==> kids[a] != kids[b]
    requires forall t :: 0 < t < n && r[t] == s ==> t in kids
    ensures forall t {:trigger r[t]} :: 0 < t < n ==> (r[t] in popped + {s} <==> t in popped + {s} || t in q1 + kids)
  {
    StepDepths(p, r, n, s, q1, popped, kids);
    var q0, q := [s] + q1, q1 + kids;
    forall t | 0 < t < n
      ensures r[t] in popped + {s} <==> t in popped + {s} || t in q
    {
      assert t in q <==> t in q1 || t in kids;
      assert t in q0 <==> t == s || t in q1;
      if t in kids {
        var a :| 0 <= a < |kids| && kids[a] == t;
      }
    }
  }

  lemma StepOrder(p: seq<string>, r: seq<int>, n: int, s: int, q1: seq<int>, popped: set<int>, kids: seq<int>, q: seq<int>)
    requires q == q1 + kids && Stepped(p, r, n, s, q1, popped, kids)
    requires forall a, b :: 0 <= a < b < |kids| ==> kids[a] != kids[b]
    ensures forall a, b :: 0 <= a <= b < |q| ==> |p[q[a]]| <= |p[q[b]]| <= |p[q[a]]| + 1
  {
    forall a, b | 0 <= a <= b < |q|
      ensures |p[q[a]]| <= |p[q[b]]| <= |p[q[a]]| + 1
    {
      if b < |q1| {
        assert q[a] == q1[a] && q[b] == q1[b];
      } else if a >= |q1| {
        assert q[a] == kids[a - |q1|] && q[b] == kids[b - |q1|];
      } else {
        assert q[a] == q1[a] && q[b] == kids[b - |q1|];
      }
    }
  }

  lemma StepFront(p: seq<string>, r: seq<int>, n: int, s: int, q1: seq<int>, popped: set<int>, kids: seq<int>, q: seq<int>)
    requires QueueOk(p, r, n, [s] + q1, popped) && q == q1 + kids && Stepped(p, r, n, s, q1, popped, kids)
    requires forall a, b :: 0 <= a < b < |kids| ==> kids[a] != kids[b]
    ensures |q| > 0 ==> forall t :: 0 < t < n && |p[t]| <= |p[q[0]]| ==> r[t] in popped + {s}
  {
    var q0 := [s] + q1;
    var d := |p[s]|;
    assert q0[0] == s;
    if |q| > 0 {
      assert |p[q[0]]| >= d by {
        if |q1| > 0 {
          assert q[0] == q1[0];
        } else {
          assert q[0] == kids[0];
        }
      }
      forall t | 0 < t < n && |p[t]| <= |p[q[0]]|
        ensures r[t] in popped + {s}
      {
        if |p[t]| > d {
          var u := r[t];
          assert |p[u]| == |p[t]| - 1 <= d;
          assert forall a :: 0 <= a < |q1| ==> |p[q1[a]]| > d by {
            if |q1| > 0 {
              assert q[0] == q1[0];
            }
          }
          if u != 0 {
            assert r[u] in popped;
            assert u in q0 ==> u == s || u in q1;
          }
        }
      }
    }
  }

  /** With the queue empty, every state has had its parent taken off it. */
  lemma AllSeen(p: seq<string>, r: seq<int>, n: int, popped: set<int>)
    requires QueueOk(p, r, n, [], popped)
    ensures forall t :: 0 < t < n ==> r[t] in popped
  {
    forall t | 0 < t < n
      ensures r[t] in popped
    {
      SeenByDepth(p, r, n, popped, t);
    }
  }

  lemma SeenByDepth(p: seq<string>, r: seq<int>, n: int, popped: set<int>, t: int)
    requires QueueOk(p, r, n, [], popped) && 0 < t < n
    ensures r[t] in popped
    decreases |p[t]|
  {
    var u := r[t];
    if u != 0 {
      assert |p[u]| < |p[t]|;
      SeenByDepth(p, r, n, popped, u);
      assert r[u] in popped;
    }
  }

  /** `kids` lists, each once, the children of `s` by the letters below
      `ch`, in letter order. */
  ghost predicate KidsOf(p: seq<string>, r: seq<int>, n: int, s: int, kids: seq<int>, ch: int)
  {
    |p| == n && |r| == n &&
    (forall a :: 0 <= a < |kids| ==> 0 < kids[a] < n && r[kids[a]] == s && |p[kids[a]]| >= 1 && Last(p[kids[a]]) < ch) &&
    (forall a, b :: 0 <= a < b < |kids| ==> kids[a] != kids[b]) &&
    (forall t {:trigger t in kids} :: 0 < t < n && r[t] == s && |p[t]| >= 1 && Last(p[t]) < ch ==> t in kids)
  }

  /** The child `t` by letter `ch`, the only one, joins the list. */
  lemma KidsAdd(p: seq<string>, r: seq<int>, n: int, s: int, kids: seq<int>, ch: int, t: int)
    requires KidsOf(p, r, n, s, kids, ch)
    requires 0 < t < n && r[t] == s && |p[t]| >= 1 && Last(p[t]) == ch
    requires forall u :: 0 < u < n && r[u] == s && |p[u]| >= 1 && Last(p[u]) == ch ==> u == t
    ensures KidsOf(p, r, n, s, kids + [t], ch + 1)
  {
    var k := kids + [t];
    assert forall a :: 0 <= a < |kids| ==> k[a] == kids[a];
    assert k[|kids|] == t;
    forall u | 0 < u < n && r[u] == s && |p[u]| >= 1 && Last(p[u]) < ch + 1
      ensures u in k
    {
      if Last(p[u]) < ch {
        assert u in kids;
      }
    }
  }

  /** Once past the last letter, the list holds every child of `s`. */
  lemma AllKids(p: seq<string>, r: seq<int>, n: int, s: int, kids: seq<int>, ch: int)
    requires PathsOk(p, r, n) && KidsOf(p, r, n, s, kids, ch) && ch >= MaxChars
    ensures forall a :: 0 <= a < |kids| ==> 0 < kids[a] < n && r[kids[a]] == s
    ensures forall a, b :: 0 <= a < b < |kids| ==> kids[a] != kids[b]
    ensures forall t :: 0 < t < n && r[t] == s ==> t in kids
  {
    forall t | 0 < t < n && r[t] == s
      ensures t in kids
    {
      assert |p[t]| >= 1 && Last(p[t]) < ch;
    }
  }

  /** No child by letter `ch`: the list stays as it is. */
  lemma KidsSkip(p: seq<string>, r: seq<int>, n: int, s: int, kids: seq<int>, ch: int)
    requires KidsOf(p, r, n, s, kids, ch)
    requires forall u :: 0 < u < n && r[u] == s && |p[u]| >= 1 ==> Last(p[u]) != ch
    ensures KidsOf(p, r, n, s, kids, ch + 1)
  {
  }

  /** The edges of a row of the goto table other than root loops lead to
      children of `s`, by their own letters. */
  ghost predicate RowEdges(p: seq<string>, r: seq<int>, n: int, s: int, row: seq<int>)
  {
    |p| == n && |r| == n &&
    forall c :: 0 <= c < |row| && row[c] != -1 && row[c] != 0 ==>
      0 < row[c] < n && r[row[c]] == s && |p[row[c]]| >= 1 && Last(p[row[c]]) == c
  }

  /** Every child of `s` is the target of the edge of its own letter, when
      the row reaches that letter. */
  ghost predicate RowLinks(p: seq<string>, r: seq<int>, n: int, s: int, row: seq<int>)
  {
    |p| == n && |r| == n &&
    forall u {:trigger r[u]} :: 0 < u < n && r[u] == s && |p[u]| >= 1 ==>
      0 <= Last(p[u]) && (Last(p[u]) < |row| ==> row[Last(p[u])] == u)
  }

  /** The targets of the edges of a row, in letter order, root loops and
      missing edges left out. */
  function KidsRow(row: seq<int>): (r: seq<int>)
    ensures |r| <= |row|
  {
    if |row| == 0 then []
    else KidsRow(row[..|row| - 1]) + (if row[|row| - 1] != -1 && row[|row| - 1] != 0 then [row[|row| - 1]] else [])
  }

  /** The targets of the row of `s` are the children of `s` by the letters
      the row covers, each once. */
  lemma {:induction false} KidsRowOk(p: seq<string>, r: seq<int>, n: int, s: int, row: seq<int>)
    requires RowEdges(p, r, n, s, row) && RowLinks(p, r, n, s, row)
    ensures KidsOf(p, r, n, s, KidsRow(row), |row|)
    decreases |row|
  {
    if |row| > 0 {
      var pre := row[..|row| - 1];
      var c := |pre|;
      assert forall x :: 0 <= x < c ==> pre[x] == row[x];
      KidsRowOk(p, r, n, s, pre);
      var t := row[c];
      if t != -1 && t != 0 {
        KidsAdd(p, r, n, s, KidsRow(pre), c, t);
      } else {
        KidsSkip(p, r, n, s, KidsRow(pre), c);
      }
    }
  }

  /** Taking `s` off the queue and queueing its children, the targets of
      its row in letter order, keeps the walk breadth first; every child
      of `s` is among them. */
  lemma ExpandQueue(p: seq<string>, r: seq<int>, n: int, s: int, q1: seq<int>, popped: set<int>, row: seq<int>)
    requires QueueOk(p, r, n, [s] + q1, popped)
    requires RowEdges(p, r, n, s, row) && RowLinks(p, r, n, s, row) && |row| == MaxChars + 1
    ensures QueueOk(p, r, n, q1 + KidsRow(row), popped + {s})
    ensures forall t :: 0 < t < n && r[t] == s ==> t in KidsRow(row)
  {
    KidsRowOk(p, r, n, s, row);
    AllKids(p, r, n, s, KidsRow(row), MaxChars + 1);
    QueueStep(p, r, n, s, q1, popped, KidsRow(row));
  }

  class Machine {
    /** The goto table: `g[s, c]` is the state after letter `c`, -1 for none. */
    const g: array2<int>
    /** The failure table. */
    const f: array<int>
    /** The output table: the keywords each state reports. */
    const out: array<set<int>>
    /** The number of states of the last build. */
    var states: int
    /** The keywords of the last build. */
    ghost var words: seq<string>
    /** The string that leads from the root to each state. */
    ghost var path: seq<string>
    /** The trie parent of each state but the root. */
    ghost var parent: seq<int>
    /** The state each keyword leads to. */
    ghost var term: seq<int>

    ghost predicate Shape()
    {
      g.Length0 == MaxStates + 1 && g.Length1 == MaxChars + 1 &&
      f.Length == MaxStates + 1 && out.Length == MaxStates + 1
    }

    /** Every state has its own string; each state but the root extends
        its parent's by one letter. */
    ghost predicate Paths()
      reads this
    {
      PathsOk(path, parent, states)
    }

    /** In table `g`, every state `t` of `p` but the root is reached from
        its parent `r[t]` by its last letter. */
    ghost predicate ParentsOf(p: seq<string>, r: seq<int>, n: int)
      reads g
      requires Shape() && PathsOk(p, r, n)
    {
      forall t {:trigger r[t]} :: 0 < t < n ==> g[r[t], Last(p[t])] == t
    }

    /** In table `g`, every edge extends its state's string in `p` by its letter. */
    ghost predicate EdgesOf(p: seq<string>, n: int)
      reads g
    {
      n == |p| &&
      forall s, c :: 0 <= s < g.Length0 && 0 <= c < g.Length1 && g[s, c] != -1 ==>
        s < n && c < MaxChars && 0 < g[s, c] < n && p[g[s, c]] == p[s] + [Char(c)]
    }

    /** In table `g`, every edge leads back to the root from the root only,
        and otherwise extends its state's string in `p` by its letter. */
    ghost predicate GotoOf(p: seq<string>, n: int)
      reads g
    {
      n == |p| &&
      forall s, c :: 0 <= s < g.Length0 && 0 <= c < g.Length1 && g[s, c] != -1 ==>
        s < n && c < MaxChars && 0 <= g[s, c] < n &&
        (g[s, c] == 0 ==> s == 0) && (g[s, c] != 0 ==> p[g[s, c]] == p[s] + [Char(c)])
    }

    /** Every state but the root is reached from its parent by its last letter. */
    ghost predicate ParentEdges()
      reads this, g
      requires Shape() && Paths()
    {
      ParentsOf(path, parent, states)
    }

    /** The goto table is the trie: every edge extends its state's string
        by its letter, and every state is reached from its parent. */
    ghost predicate Trie()
      reads this, g
    {
      Shape() && Paths() && TrieEdges() && ParentEdges()
    }

    /** Every edge extends its state's string by its letter. */
    ghost predicate TrieEdges()
      reads this, g
    {
      EdgesOf(path, states)
    }

    /** Every edge leads back to the root from the root only, and
        otherwise extends its state's string by its letter. */
    ghost predicate GotoEdges()
      reads this, g
    {
      GotoOf(path, states)
    }

    /** The trie with the root's missing edges leading back to the root. */
    ghost predicate Goto()
      reads this, g
    {
      Shape() && Paths() && GotoEdges() &&
      (forall c :: 0 <= c < MaxChars ==> g[0, c] != -1) &&
      ParentEdges()
    }

    /** The failure link of state `t` leads to the deepest state whose
        string is a proper suffix of `t`'s. */
    ghost predicate FailOk(t: int)
      reads this, f
      requires Shape() && Paths() && 0 < t < states
    {
      FailOkAt(t, f[t])
    }

    /** `y` is the deepest state whose string is a proper suffix of `t`'s. */
    ghost predicate FailOkAt(t: int, y: int)
      reads this
      requires Paths() && 0 < t < states
    {
      0 <= y < states && ProperSuffix(path[y], path[t]) &&
      forall u {:trigger ProperSuffix(path[u], path[t])} :: 0 <= u < states && ProperSuffix(path[u], path[t]) ==> |path[u]| <= |path[y]|
    }

    /** State `t` finished by the walk: its failure link is right, it
        outputs every non-empty keyword its string ends with, and, below
        depth 1, every output of its failure target. */
    ghost predicate Final(t: int)
      reads this, f, out
      requires Shape() && Paths() && 0 < t < states
    {
      0 <= f[t] < states && FinalAt(t, f[t], out[t], out[f[t]])
    }

    /** `Final` for a state `t` with failure target `y`, outputs `o` and
        outputs `oy` at `y`. */
    ghost predicate FinalAt(t: int, y: int, o: set<int>, oy: set<int>)
      reads this
      requires Paths() && 0 < t < states
    {
      FailOkAt(t, y) && Matches(words, path[t]) <= o && (|path[t]| > 1 ==> oy <= o)
    }

    /** Every state reports only keywords its string ends with, and each
        keyword is reported at the state it leads to. */
    ghost predicate OutOk()
      reads this, out
      requires Shape() && Paths()
    {
      (forall s :: 0 <= s < states ==> out[s] <= Ends(words, path[s])) &&
      |term| == |words| &&
      forall x :: 0 <= x < |words| ==> 0 <= term[x] < states && path[term[x]] == words[x] && x in out[term[x]]
    }

    /** The outputs after keywords `0 .. i - 1` have been added to the trie. */
    ghost predicate OutSoFar(i: nat)
      reads this, out
      requires Shape() && Paths()
    {
      i <= |words| && |term| == i &&
      (forall s :: 0 <= s < out.Length ==>
        (s >= states ==> out[s] == {}) && (s < states ==> forall x :: x in out[s] ==> 0 <= x < i && words[x] == path[s])) &&
      forall x :: 0 <= x < i ==> 0 <= term[x] < states && path[term[x]] == words[x] && x in out[term[x]]
    }

    /** The machine after a build. */
    ghost predicate Built()
      reads this, g, f, out
    {
      Goto() && Elems(path) == {[]} + Prefixes(words) && |words| <= MaxWords &&
      OutOk() && (forall t :: 0 < t < states ==> Final(t)) && Searchable()
    }

    /** What the search needs of a built machine: every goto edge stays
        among the states, none is missing from the root, and every failure
        link leads to a strictly shorter string. */
    ghost predicate Searchable()
      reads this, g, f
    {
      g.Length0 == MaxStates + 1 && g.Length1 == MaxChars + 1 &&
      f.Length == MaxStates + 1 && out.Length == MaxStates + 1 &&
      0 < states <= MaxStates + 1 && |path| == states &&
      (forall s, c :: 0 <= s < states && 0 <= c < MaxChars ==> -1 <= g[s, c] < states) &&
      (forall c :: 0 <= c < MaxChars ==> g[0, c] != -1) &&
      (forall t :: 0 < t < states ==> 0 <= f[t] < states && |path[f[t]]| < |path[t]|)
    }

    /** What the search's correctness needs: the root stands for the empty
        string, and every goto edge and failure link leads to a state whose
        string ends the string it leads from (extended by the edge's letter). */
    ghost predicate Suffixes()
      reads this, g, f
    {
      Searchable() && path[0] == [] &&
      (forall s, c :: 0 <= s < states && 0 <= c < MaxChars && g[s, c] != -1 ==> IsSuffix(path[g[s, c]], path[s] + [Char(c)])) &&
      (forall t :: 0 < t < states ==> IsSuffix(path[f[t]], path[t]))
    }

    /** What the search's soundness needs: the suffix facts, and every
        keyword a state reports ends that state's string. */
    ghost predicate Reports()
      reads this, g, f, out
    {
      Suffixes() && forall s :: 0 <= s < states ==> out[s] <= Ends(words, path[s])
    }

    /** A built machine's edges and failure links end the strings they lead
        from, and its states report only keywords their strings end with. */
    lemma BuiltReports()
      requires Built()
      ensures Reports()
    {
      forall s, c | 0 <= s < states && 0 <= c < MaxChars && g[s, c] != -1
        ensures IsSuffix(path[g[s, c]], path[s] + [Char(c)])
      {
        assert (path[s] + [Char(c)])[|path[s]| + 1..] == [];
      }
      forall t | 0 < t < states
        ensures IsSuffix(path[f[t]], path[t])
      {
        assert Final(t);
      }
    }

    /** The trie with its failure links can search. */
    lemma FailSearchable()
      requires Goto() && forall t :: 0 < t < states ==> Final(t)
      ensures Searchable()
    {
      forall s, c | 0 <= s < states && 0 <= c < MaxChars
        ensures -1 <= g[s, c] < states
      {
      }
      forall t | 0 < t < states
        ensures 0 <= f[t] < states && |path[f[t]]| < |path[t]|
      {
        assert Final(t);
      }
    }

    /** The static tables, zero-initialised. */
    constructor ()
      ensures Shape()
    {
      g := new int[MaxStates + 1, MaxChars + 1]((_, _) => 0);
      f := new int[MaxStates + 1](_ => 0);
      out := new set<int>[MaxStates + 1](_ => {});
    }

    /** `BuildMatchingMachine()` for keywords of lower-case letters, at
        most 31 of them, of total length at most `MAX_STATES`: the number
        of states, one per distinct non-empty prefix plus the root. */
    method BuildMatchingMachine(ws: seq<string>) returns (n: int)
      requires Shape()
      requires forall x :: 0 <= x < |ws| ==> Lower(ws[x])
      requires TotalLength(ws) <= MaxStates && |ws| <= MaxWords
      modifies this, g, f, out
      ensures Built() && words == ws && n == states && n == 1 + |Prefixes(ws)|
    {
      Reset(ws);
      BuildTrie(ws);
      CompleteRoot();
      BuildFailure();
      n := states;
      assert [] !in Prefixes(ws);
      AllDistinct();
      DistinctCard(path);
    }

    /** The tables cleared (no edges, no outputs) and the bare root. */
    method Reset(ws: seq<string>)
      requires Shape()
      modifies this, g, f, out
      ensures Trie() && words == ws && states == 1 && path == [[]] && OutSoFar(0)
    {
      forall s | 0 <= s < out.Length {
        out[s] := {};
      }
      forall s | 0 <= s < f.Length {
        f[s] := -1;
      }
      forall s, c | 0 <= s < g.Length0 && 0 <= c < g.Length1 {
        g[s, c] := -1;
      }
      words := ws;
      states := 1;
      path := [[]];
      parent := [0];
      term := [];
    }

    /** The keywords added one after the other to the trie. */
    method BuildTrie(ws: seq<string>)
      requires ws == words && Trie() && states == 1 && path == [[]] && OutSoFar(0)
      requires forall x :: 0 <= x < |words| ==> Lower(words[x])
      requires TotalLength(words) <= MaxStates
      modifies this, g, out
      ensures Trie() && words == old(words) && Elems(path) == {[]} + Prefixes(words) && OutOk()
    {
      var i := 0;
      assert Elems(path) == {[]};
      while i < |ws|
        invariant Inserted(i, ws)
      {
        InsertWord(ws[i], i, ws);
        i := i + 1;
      }
      assert words[..i] == words;
      assert OutOk() by {
        forall s | 0 <= s < states
          ensures out[s] <= Ends(words, path[s])
        {
          assert forall x :: x in out[s] ==> words[x] == path[s] && IsSuffix(words[x], path[s]);
        }
      }
    }

    /** The trie after keywords `0 .. i - 1` of `ws` have been added: its
        states are the root and their prefixes, and each of the keywords is
        reported where it leads. */
    ghost predicate Inserted(i: int, ws: seq<string>)
      reads this, g, out
    {
      Trie() && words == ws && 0 <= i <= |words| &&
      (forall x :: 0 <= x < |words| ==> Lower(words[x])) && TotalLength(words) <= MaxStates &&
      Elems(path) == {[]} + Prefixes(words[..i]) && states <= 1 + TotalLength(words[..i]) &&
      OutSoFar(i)
    }

    /** The insertion of keyword `i` into the trie. */
    method InsertWord(w: string, i: nat, ghost ws: seq<string>)
      requires Inserted(i, ws) && i < |ws| && w == ws[i]
      modifies this, g, out
      ensures Inserted(i + 1, ws)
    {
      TotalLengthPrefix(words, i + 1);
      assert words[..i + 1][..i] == words[..i] && words[..i + 1][i] == w;
      assert TotalLength(words[..i + 1]) == TotalLength(words[..i]) + |w|;
      var cur := Walk(w, i);
      PrefixesStep(words, i);
      Record(cur, i, ws);
    }

    /** Keyword `i` reported at state `cur`, which stands for it, once the
        trie holds the prefixes of keywords `0 .. i`. */
    method Record(cur: int, i: nat, ghost ws: seq<string>)
      requires Trie() && words == ws && i < |words| && OutSoFar(i) && 0 <= cur < states && path[cur] == words[i]
      requires (forall x :: 0 <= x < |words| ==> Lower(words[x])) && TotalLength(words) <= MaxStates
      requires Elems(path) == {[]} + Prefixes(words[..i + 1]) && states <= 1 + TotalLength(words[..i + 1])
      modifies this, out
      ensures Inserted(i + 1, ws)
    {
      out[cur] := out[cur] + {i};
      term := term + [cur];
    }

    /** The walk down the trie along `w`, adding the states it lacks: the
        state `w` leads to. */
    method Walk(w: string, ghost i: nat) returns (cur: int)
      requires i < |words| && w == words[i] && Lower(w) && Trie()
      requires Elems(path) == {[]} + Prefixes(words[..i])
      requires states + |w| <= MaxStates + 1
      requires OutSoFar(i)
      modifies this, g
      ensures Trie() && words == old(words) && term == old(term) && 0 <= cur < states && path[cur] == w
      ensures Elems(path) == {[]} + Prefixes(words[..i]) + PrefixesUpTo(w, |w|)
      ensures states <= old(states) + |w|
      ensures OutSoFar(i)
    {
      cur := 0;
      var j := 0;
      while j < |w|
        invariant Walked(w, i, j, cur, old(words), old(term), old(states))
      {
        cur := WalkStep(w, i, j, cur, old(words), old(term), old(states));
        j := j + 1;
      }
      assert w[..|w|] == w;
    }

    /** After the first `j` letters of keyword `i`: the walk is at the state
        for them, and the trie has gained the states for its prefixes up to
        length `j`, at most one per letter. */
    ghost predicate Walked(w: string, i: nat, j: int, cur: int, ws: seq<string>, t: seq<int>, n: int)
      reads this, g, out
    {
      Trie() && words == ws && term == t && i < |words| && w == words[i] && Lower(w) &&
      0 <= j <= |w| && 0 <= cur < states && path[cur] == w[..j] &&
      Elems(path) == {[]} + Prefixes(words[..i]) + PrefixesUpTo(w, j) &&
      n <= states <= n + j && n + |w| <= MaxStates + 1 && OutSoFar(i)
    }

    /** One letter of the walk: follow its edge, adding the state when the
        edge is missing. */
    method WalkStep(w: string, ghost i: nat, j: int, cur: int, ghost ws: seq<string>, ghost t: seq<int>, ghost n: int) returns (cur': int)
      requires Walked(w, i, j, cur, ws, t, n) && j < |w|
      modifies this, g
      ensures Walked(w, i, j + 1, cur', ws, t, n)
    {
      var ch := Letter(w[j]);
      assert Char(ch) == w[j];
      assert w[..j + 1] == path[cur] + [w[j]];
      PrefixesUpToStep(w, j);
      if g[cur, ch] == -1 {
        ghost var p0 := path;
        NewState(cur, ch);
        ElemsSnoc(p0, w[..j + 1]);
        OutGrows(i, p0);
      }
      cur' := g[cur, ch];
    }


    /** A new state leaves the outputs so far as they were. */
    lemma OutGrows(i: nat, p0: seq<string>)
      requires Shape() && Paths() && i <= |words| && |term| == i && |p0| == states - 1 && p0 == path[..states - 1]
      requires forall s :: 0 <= s < out.Length ==>
        (s >= states - 1 ==> out[s] == {}) && (s < states - 1 ==> forall x :: x in out[s] ==> 0 <= x < i && words[x] == p0[s])
      requires forall x :: 0 <= x < i ==> 0 <= term[x] < states - 1 && p0[term[x]] == words[x] && x in out[term[x]]
      ensures OutSoFar(i)
    {
    }

    /** A new state `states` for the edge from `cur` by letter `ch`, which
        leads nowhere yet. */
    method NewState(cur: int, ch: int)
      requires Trie() && 0 <= cur < states && 0 <= ch < MaxChars && g[cur, ch] == -1
      requires states < MaxStates + 1
      modifies this, g
      ensures Trie() && words == old(words) && term == old(term) && states == old(states) + 1
      ensures path == old(path) + [old(path)[cur] + [Char(ch)]]
      ensures g[cur, ch] == old(states)
    {
      ghost var p0, r0 := path, parent;
      Extend(cur, ch);
      Link(cur, ch, p0, r0);
    }

    /** The trie `p0`, `r0` with a last state added whose edge from its
        parent `cur` by letter `ch` is still missing. */
    ghost predicate TrieBut(cur: int, ch: int, p0: seq<string>, r0: seq<int>)
      reads this, g
    {
      Shape() && PathsOk(p0, r0, |p0|) && EdgesOf(p0, |p0|) && ParentsOf(p0, r0, |p0|) &&
      0 <= cur < |p0| < MaxStates + 1 && 0 <= ch < MaxChars && g[cur, ch] == -1 &&
      path == p0 + [p0[cur] + [Char(ch)]] && parent == r0 + [cur] && states == |p0| + 1
    }

    /** The strings and parents of the new state. */
    method Extend(cur: int, ch: int)
      requires Trie() && 0 <= cur < states && 0 <= ch < MaxChars && g[cur, ch] == -1
      requires states < MaxStates + 1
      modifies this
      ensures TrieBut(cur, ch, old(path), old(parent)) && words == old(words) && term == old(term)
    {
      path := path + [path[cur] + [Char(ch)]];
      parent := parent + [cur];
      states := states + 1;
    }

    /** The edge to the new state. */
    method Link(cur: int, ch: int, ghost p0: seq<string>, ghost r0: seq<int>)
      requires TrieBut(cur, ch, p0, r0)
      modifies g
      ensures Trie() && g[cur, ch] == states - 1
    {
      ghost var n := |p0|;
      ghost var l := p0[cur] + [Char(ch)];
      assert l[..|l| - 1] == p0[cur];
      PathsSnoc(p0, r0, cur, l);
      g[cur, ch] := states - 1;
      assert TrieEdges() by {
        forall s, c | 0 <= s < g.Length0 && 0 <= c < g.Length1 && g[s, c] != -1
          ensures s < states && c < MaxChars && 0 < g[s, c] < states && path[g[s, c]] == path[s] + [Char(c)]
        {
          if s != cur || c != ch {
            assert old(g[s, c]) == g[s, c];
            assert path[g[s, c]] == p0[g[s, c]] && path[s] == p0[s];
          }
        }
      }
      assert ParentEdges() by {
        forall t | 0 < t < states
          ensures |path[t]| >= 1 && 0 <= parent[t] < g.Length0 && 0 <= Last(path[t]) < g.Length1
          ensures g[parent[t], Last(path[t])] == t
        {
          if t < n {
            assert parent[t] == r0[t] && path[t] == p0[t];
            var c := Last(p0[t]);
            assert 0 <= r0[t] < n && 0 <= c < MaxChars;
            assert old(g[r0[t], c]) == t;
          } else {
            assert Last(path[t]) == ch;
          }
        }
      }
    }

    /** Distinct states have distinct strings: equal strings have equal
        parents' strings, and a parent reaches one state per letter. */
    lemma Injective(a: int, b: int)
      requires Shape() && Paths() && ParentEdges() && 0 <= a < states && 0 <= b < states && path[a] == path[b]
      ensures a == b
      decreases |path[a]|
    {
      if a != 0 {
        assert parent[a] < states;
      }
      if b != 0 {
        assert parent[b] < states;
      }
      if a != 0 && b != 0 {
        assert path[parent[a]] == path[parent[b]];
        Injective(parent[a], parent[b]);
        assert g[parent[a], Last(path[a])] == a;
        assert g[parent[b], Last(path[b])] == b;
      }
    }

    lemma AllDistinct()
      requires Shape() && Paths() && ParentEdges()
      ensures forall a, b :: 0 <= a < b < states ==> path[a] != path[b]
    {
      forall a, b | 0 <= a < b < states
        ensures path[a] != path[b]
      {
        if path[a] == path[b] {
          Injective(a, b);
        }
      }
    }

    /** Every letter without an edge from the root leads back to it. */
    method CompleteRoot()
      requires Trie()
      modifies g
      ensures Goto()
    {
      var ch := 0;
      while ch < MaxChars
        invariant 0 <= ch <= MaxChars && Shape() && Paths()
        invariant GotoEdges() && ParentEdges()
        invariant forall c :: 0 <= c < ch ==> g[0, c] != -1
      {
        if g[0, ch] == -1 {
          g[0, ch] := 0;
        }
        ch := ch + 1;
      }
    }

    /** Every state whose parent the walk has taken off the queue is
        finished, and so is its failure target unless that is the root. */
    ghost predicate FailsOk(popped: set<int>)
      reads this, f, out
      requires Shape() && Paths()
    {
      (forall t :: 0 < t < states && parent[t] in popped ==> Final(t)) &&
      forall t, v {:trigger parent[t], parent[v]} ::
        0 < t < states && 0 < v < states && parent[t] in popped && f[t] == v ==> parent[v] in popped
    }

    /** The breadth-first walk with queue `q`, having taken the states
        `popped` off it (the root counts as taken). */
    ghost predicate Bfs(q: seq<int>, popped: set<int>)
      reads this, g, f, out
    {
      Goto() && OutOk() && QueueOk(path, parent, states, q, popped) && FailsOk(popped)
    }

    /** The states the walk has still to take off the queue. */
    ghost function Pending(popped: set<int>): set<int>
      reads this
    {
      set x | 0 <= x < states && x !in popped
    }

    /** The failure links, breadth first from the states of depth 1. */
    method BuildFailure()
      requires Goto() && OutOk() && Elems(path) == {[]} + Prefixes(words) && |words| <= MaxWords
      modifies f, out
      ensures Built()
    {
      var q := SeedQueue();
      ghost var popped: set<int> := {0};
      while |q| > 0
        invariant Bfs(q, popped)
        decreases Pending(popped)
      {
        var s := q[0];
        assert q == [s] + q[1..];
        assert s in Pending(popped);
        ghost var p0 := popped;
        q := Expand(s, q[1..], p0);
        popped := popped + {s};
      }
      AllSeenOk(popped);
      FailSearchable();
    }

    /** With the queue empty, every state is finished. */
    lemma AllSeenOk(popped: set<int>)
      requires Bfs([], popped)
      ensures forall t :: 0 < t < states ==> Final(t)
    {
      AllSeen(path, parent, states, popped);
    }

    /** The states of `L` are finished, and so are their failure targets
        unless those are the root. */
    ghost predicate Linked(L: set<int>)
      reads this, f, out
      requires Shape() && Paths()
    {
      (forall u :: u in L ==> 0 < u < states && Final(u)) &&
      forall u, v {:trigger u in L, v in L} :: u in L && f[u] == v && v != 0 ==> v in L
    }

    /** The states of depth 1 queued, their failure links to the root. */
    method SeedQueue() returns (q: seq<int>)
      requires Goto() && OutOk()
      modifies f
      ensures Bfs(q, {0})
    {
      ghost var L;
      q, L := Seeds();
      SeedsQueued(q, L);
    }

    /** The children of the root, each linked to it, make the first queue
        of the walk. */
    lemma SeedsQueued(q: seq<int>, L: set<int>)
      requires Seeded(MaxChars, q, L)
      ensures Bfs(q, {0})
    {
      RootQueue();
      FailsAfter(0, [], q, {}, {}, L, MaxChars);
    }

    /** The loop over the letters of `SeedQueue`: the children of the root
        linked to it and queued in letter order. */
    method Seeds() returns (q: seq<int>, ghost L: set<int>)
      requires Goto() && OutOk()
      modifies f
      ensures Seeded(MaxChars, q, L)
    {
      q := [];
      L := {};
      var ch := 0;
      while ch < MaxChars
        invariant Seeded(ch, q, L)
      {
        q, L := SeedStep(ch, q, L);
        ch := ch + 1;
      }
    }

    /** The state of the loop of `SeedQueue` before letter `ch`. */
    ghost predicate Seeded(ch: int, q: seq<int>, L: set<int>)
      reads this, g, f, out
    {
      0 <= ch <= MaxChars && Goto() && OutOk() && Linked(L) && q == Kids(0, ch) &&
      (forall a :: 0 <= a < |q| ==> q[a] in L) &&
      forall u :: u in L ==> parent[u] == 0
    }

    /** Letter `ch` of `SeedQueue`: the child of the root by `ch`, if any,
        linked to the root and queued. */
    method SeedStep(ch: int, q: seq<int>, ghost L: set<int>) returns (q': seq<int>, ghost L': set<int>)
      requires Seeded(ch, q, L) && ch < MaxChars
      modifies f
      ensures Seeded(ch + 1, q', L')
    {
      var t := g[0, ch];
      if t != -1 && t != 0 {
        Child(0, ch);
        LinkRoot(t, L);
        L' := L + {t};
        q' := q + [t];
      } else {
        L' := L;
        q' := q;
      }
    }

    /** The children of the root in letter order make a breadth-first queue
        with only the root taken off. */
    lemma RootQueue()
      requires Goto()
      ensures QueueOk(path, parent, states, Kids(0, MaxChars), {0})
      ensures forall t :: 0 < t < states && parent[t] == 0 ==> t in Kids(0, MaxChars)
    {
      var row := RowOf(0)[..MaxChars];
      RowFacts(0, row);
      KidsIsRow(0, MaxChars);
      KidsRowOk(path, parent, states, 0, row);
      AllKids(path, parent, states, 0, KidsRow(row), MaxChars);
      SeedOk(path, parent, states, KidsRow(row));
    }

    /** The failure link of a state of depth 1, to the root. */
    method LinkRoot(t: int, ghost L: set<int>)
      requires Goto() && OutOk() && Linked(L) && 0 < t < states && parent[t] == 0
      modifies f
      ensures Linked(L + {t}) && f[t] == 0
    {
      f[t] := 0;
      assert path[0] == path[t][..|path[t]| - 1];
      OwnOut(t);
      assert Matches(words, path[t]) <= out[t] by {
        forall x | x in Matches(words, path[t])
          ensures x in out[t]
        {
          assert words[x] == path[t][|path[t]| - |words[x]|..] == path[t];
        }
      }
      forall u | u in L + {t}
        ensures 0 < u < states && Final(u) && (f[u] == 0 || f[u] in L + {t})
      {
        if u != t {
          assert f[u] == old(f[u]);
        }
      }
    }

    /** Every keyword that is the string of `t` is output at `t`. */
    lemma OwnOut(t: int)
      requires Goto() && OutOk() && 0 <= t < states
      ensures forall x :: 0 <= x < |words| && words[x] == path[t] ==> x in out[t]
    {
      forall x | 0 <= x < |words| && words[x] == path[t]
        ensures x in out[t]
      {
        Injective(term[x], t);
      }
    }

    /** The target of an edge other than a root loop is the child of its
        source by that letter. */
    lemma Child(s: int, ch: int)
      requires Goto() && 0 <= s < states && 0 <= ch < g.Length1 && g[s, ch] != -1 && g[s, ch] != 0
      ensures ch < MaxChars && 0 < g[s, ch] < states && parent[g[s, ch]] == s
      ensures |path[g[s, ch]]| == |path[s]| + 1 && Last(path[g[s, ch]]) == ch
    {
      var t := g[s, ch];
      assert path[t] == path[s] + [Char(ch)];
      assert path[parent[t]] == path[s];
      Injective(parent[t], s);
    }

    /** The children of state `s`, just taken off the queue, get their
        failure links and outputs and join the queue `q1`. */
    method Expand(s: int, q1: seq<int>, ghost popped0: set<int>) returns (q: seq<int>)
      requires Bfs([s] + q1, popped0)
      modifies f, out
      ensures Bfs(q, popped0 + {s})
    {
      StepRest(path, parent, states, s, q1, popped0);
      QueueGrows(s, q1, popped0);
      ghost var L0 := AllLinked(popped0);
      assert ([s] + q1)[0] == s;
      ghost var L;
      q, L := Adoptions(s, q1, L0);
      FailsAfter(s, q1, q, popped0, L0, L, MaxChars + 1);
    }

    /** The children of `s` queued after `q1` are linked, and so are the
        states whose parents were taken off the queue before `s`. */
    lemma FailsAfter(s: int, q1: seq<int>, q: seq<int>, popped: set<int>, L0: set<int>, L: set<int>, ch: int)
      requires Shape() && Paths() && Linked(L) && L0 <= L && 0 <= s < g.Length0 && 0 <= ch <= g.Length1
      requires forall u :: 0 < u < states && parent[u] in popped ==> u in L0
      requires forall u :: u in L ==> parent[u] in popped || parent[u] == s
      requires forall t :: 0 < t < states && parent[t] == s ==> t in Kids(s, ch)
      requires q == q1 + Kids(s, ch) && forall a :: |q1| <= a < |q| ==> q[a] in L
      ensures FailsOk(popped + {s})
    {
      var kids := Kids(s, ch);
      forall t | 0 < t < states && parent[t] in popped + {s}
        ensures Final(t) && (f[t] == 0 || parent[f[t]] in popped + {s})
      {
        if parent[t] == s {
          assert t in kids;
          var a :| 0 <= a < |kids| && kids[a] == t;
          assert q[|q1| + a] in L;
        } else {
          assert t in L0;
        }
      }
    }

    /** Taking `s` off the queue and queueing its children in letter order
        keeps the walk breadth first. */
    lemma QueueGrows(s: int, q1: seq<int>, popped: set<int>)
      requires Goto() && QueueOk(path, parent, states, [s] + q1, popped) && 0 <= s < states
      ensures QueueOk(path, parent, states, q1 + Kids(s, MaxChars + 1), popped + {s})
      ensures forall t :: 0 < t < states && parent[t] == s ==> t in Kids(s, MaxChars + 1)
    {
      var row := RowOf(s);
      RowFacts(s, row);
      KidsIsRow(s, MaxChars + 1);
      assert row[..MaxChars + 1] == row;
      ExpandQueue(path, parent, states, s, q1, popped, row);
    }

    /** The loop over the letters of `Expand`: each child of `s` gets its
        failure link and outputs and joins the queue after `q1`. */
    method Adoptions(s: int, q1: seq<int>, ghost L0: set<int>) returns (q: seq<int>, ghost L: set<int>)
      requires Goto() && OutOk() && Linked(L0) && 0 < s < states
      requires forall u {:trigger Shallow(u, s)} :: Shallow(u, s) ==> u in L0
      requires forall u :: u in L0 ==> parent[u] != s
      modifies f, out
      ensures Goto() && OutOk() && Linked(L) && L0 <= L
      ensures q == q1 + Kids(s, MaxChars + 1)
      ensures forall a :: |q1| <= a < |q| ==> q[a] in L
      ensures forall u :: u in L ==> u in L0 || parent[u] == s
    {
      L := L0;
      q := q1;
      var ch := 0;
      while ch <= MaxChars
        invariant 0 <= ch <= MaxChars + 1 && Adopted(s, q1, ch, q, L, L0) && L0 <= L
      {
        q, L := AdoptStep(s, q1, ch, q, L, L0);
        ch := ch + 1;
      }
    }

    /** The state of the loop of `Adoptions` before letter `ch`: the
        states linked are those of `L0` and the children of `s` by the
        letters below `ch`. */
    ghost predicate Adopted(s: int, q1: seq<int>, ch: int, q: seq<int>, L: set<int>, L0: set<int>)
      reads this, g, f, out
    {
      Goto() && OutOk() && Linked(L) && Tracked(s, q1, ch, q, L, L0)
    }

    /** The queue and the set of linked states of the loop of `Adoptions`
        before letter `ch`. */
    ghost predicate Tracked(s: int, q1: seq<int>, ch: int, q: seq<int>, L: set<int>, L0: set<int>)
      reads this, g
    {
      Shape() && Paths() && 0 < s < states && 0 <= ch <= MaxChars + 1 &&
      q == q1 + Kids(s, ch) &&
      (forall a :: |q1| <= a < |q| ==> q[a] in L) &&
      (forall u {:trigger Shallow(u, s)} :: Shallow(u, s) ==> u in L) &&
      (forall u :: u in L ==> u in L0 || (0 < u < states && parent[u] == s && Last(path[u]) < ch)) &&
      (forall u :: u in L0 ==> 0 < u < states && parent[u] != s)
    }

    /** Letter `ch` of `Adoptions`: the child by `ch`, if any, adopted. */
    method AdoptStep(s: int, q1: seq<int>, ch: int, q: seq<int>, ghost L: set<int>, ghost L0: set<int>) returns (q': seq<int>, ghost L': set<int>)
      requires Adopted(s, q1, ch, q, L, L0) && ch <= MaxChars
      modifies f, out
      ensures Adopted(s, q1, ch + 1, q', L', L0) && L <= L'
    {
      if g[s, ch] != -1 {
        TrackStep(s, q1, ch, q, L, L0);
        var t := Adopt(s, ch, L);
        L' := L + {t};
        q' := q + [t];
      } else {
        assert Kids(s, ch + 1) == Kids(s, ch);
        L' := L;
        q' := q;
      }
    }

    /** The child of `s` by `ch` is not linked yet, and adopting it keeps
        the queue and the linked states tracked. */
    lemma TrackStep(s: int, q1: seq<int>, ch: int, q: seq<int>, L: set<int>, L0: set<int>)
      requires Goto() && Tracked(s, q1, ch, q, L, L0) && ch <= MaxChars && g[s, ch] != -1
      ensures g[s, ch] !in L && Tracked(s, q1, ch + 1, q + [g[s, ch]], L + {g[s, ch]}, L0)
    {
      Child(s, ch);
      KidsNext(s, q1, ch, q);
    }

    /** The queue after `q1` grows by the child of `s` by `ch`. */
    lemma KidsNext(s: int, q1: seq<int>, ch: int, q: seq<int>)
      requires 0 <= s < g.Length0 && 0 <= ch < g.Length1 && g[s, ch] != -1 && g[s, ch] != 0
      requires q == q1 + Kids(s, ch)
      ensures q + [g[s, ch]] == q1 + Kids(s, ch + 1)
    {
      assert Kids(s, ch + 1) == Kids(s, ch) + [g[s, ch]];
    }

    /** The targets of the edges from `s` by the letters below `ch`, root
        loops and missing edges left out. */
    ghost function Kids(s: int, ch: int): seq<int>
      reads g
      requires 0 <= s < g.Length0 && 0 <= ch <= g.Length1
    {
      if ch == 0 then []
      else Kids(s, ch - 1) + (if g[s, ch - 1] != -1 && g[s, ch - 1] != 0 then [g[s, ch - 1]] else [])
    }

    /** `Kids` is `KidsRow` on the row of `s` so far. */
    lemma {:induction false} KidsIsRow(s: int, ch: int)
      requires 0 <= s < g.Length0 && 0 <= ch <= g.Length1
      ensures Kids(s, ch) == KidsRow(RowOf(s)[..ch])
      decreases ch
    {
      if ch > 0 {
        KidsIsRow(s, ch - 1);
        assert RowOf(s)[..ch][..ch - 1] == RowOf(s)[..ch - 1];
      }
    }

    /** The row of state `s` of the goto table, as a value. */
    ghost function RowOf(s: int): (row: seq<int>)
      reads g
      requires 0 <= s < g.Length0
      ensures |row| == g.Length1 && forall c :: 0 <= c < g.Length1 ==> row[c] == g[s, c]
    {
      seq(g.Length1, c reads g requires 0 <= c < g.Length1 => g[s, c])
    }

    /** The row of `s` in the goto table holds the edges to the children of
        `s`, each by its own letter. */
    lemma RowFacts(s: int, row: seq<int>)
      requires Goto() && 0 <= s < states && |row| <= g.Length1
      requires forall c :: 0 <= c < |row| ==> row[c] == g[s, c]
      ensures RowEdges(path, parent, states, s, row) && RowLinks(path, parent, states, s, row)
    {
      forall c | 0 <= c < |row| && row[c] != -1 && row[c] != 0
        ensures 0 < row[c] < states && parent[row[c]] == s && |path[row[c]]| >= 1 && Last(path[row[c]]) == c
      {
        Child(s, c);
      }
      forall u | 0 < u < states && parent[u] == s && |path[u]| >= 1
        ensures 0 <= Last(path[u]) && (Last(path[u]) < |row| ==> row[Last(path[u])] == u)
      {
        assert g[parent[u], Last(path[u])] == u;
      }
    }

    /** The states whose parents have been taken off the queue, which
        include every state no deeper than the front `s`. */
    lemma AllLinked(popped: set<int>) returns (L: set<int>)
      requires Shape() && Paths() && FailsOk(popped)
      ensures Linked(L) && forall u :: 0 < u < states && parent[u] in popped ==> u in L
      ensures forall u :: u in L ==> parent[u] in popped
    {
      L := set u | 0 < u < states && parent[u] in popped;
    }

    /** Child `g[s, ch]` of `s`, not linked yet: its failure link and its
        outputs merged with those of the link's target. */
    method Adopt(s: int, ch: int, ghost L: set<int>) returns (t: int)
      requires Goto() && OutOk() && Linked(L) && 0 < s < states && 0 <= ch <= MaxChars && g[s, ch] != -1
      requires forall u {:trigger Shallow(u, s)} :: Shallow(u, s) ==> u in L
      requires g[s, ch] !in L
      modifies f, out
      ensures t == g[s, ch] && 0 < t < states && parent[t] == s && Last(path[t]) == ch
      ensures Goto() && OutOk() && Linked(L + {t})
    {
      var y;
      t, y := Target(s, ch);
      assert y == 0 || Shallow(y, s);
      SetFail(t, y, L);
      Merge(t, y, L);
    }

    /** Child `t == g[s, ch]` of `s` and the target `y` of its failure
        link: the edge by `ch` from the deepest state of the failure chain
        of `s` that has one, the deepest state whose string is a proper
        suffix of `t`'s. */
    method Target(s: int, ch: int) returns (t: int, y: int)
      requires Goto() && 0 < s < states && 0 <= ch <= MaxChars && g[s, ch] != -1
      requires forall u {:trigger Shallow(u, s)} :: Shallow(u, s) ==> Final(u)
      ensures t == g[s, ch] && 0 < t < states && parent[t] == s && Last(path[t]) == ch
      ensures |path[t]| == |path[s]| + 1 && 0 <= y < states && |path[y]| <= |path[s]| && DeepestIn(y, path[t][1..])
    {
      t := g[s, ch];
      Child(s, ch);
      var failure := FailureChain(s, ch);
      y := g[failure, ch];
      assert path[t] == path[s] + [Char(ch)];
      TailSnoc(path[s], Char(ch));
    }

    /** The failure link of `t`, not linked yet, set to `y`. */
    method SetFail(t: int, y: int, ghost L: set<int>)
      requires Goto() && Linked(L) && 0 < t < states && t !in L && |path[t]| >= 1 && DeepestIn(y, path[t][1..])
      modifies f
      ensures Linked(L) && f[t] == y && FailOk(t)
      ensures forall u :: 0 <= u < f.Length && u != t ==> f[u] == old(f[u])
    {
      f[t] := y;
      forall u | u in L
        ensures 0 < u < states && Final(u) && (f[u] == 0 || f[u] in L)
      {
        assert f[u] == old(f[u]);
      }
      DeepestFail(t);
    }

    /** A link to the deepest state whose string ends the tail of `t`'s
        string is a failure link that is right. */
    lemma DeepestFail(t: int)
      requires Shape() && Paths() && 0 < t < states && |path[t]| >= 1 && DeepestIn(f[t], path[t][1..])
      ensures FailOk(t)
    {
      TailSuffix(path[f[t]], path[t]);
      forall u | 0 <= u < states && ProperSuffix(path[u], path[t])
        ensures |path[u]| <= |path[f[t]]|
      {
        TailSuffix(path[u], path[t]);
      }
    }

    /** The outputs of `y`, the failure target of `t`, added to those of
        `t`, which is not linked yet. */
    method Merge(t: int, y: int, ghost L: set<int>)
      requires Goto() && OutOk() && Linked(L) && 0 < t < states && t !in L && FailOk(t) && f[t] == y
      requires y == 0 || y in L
      modifies out
      ensures OutOk() && Linked(L + {t}) && out[t] == old(out[t]) + old(out[y])
      ensures forall u :: 0 <= u < out.Length && u != t ==> out[u] == old(out[u])
    {
      EndsMono(words, path[y], path[t]);
      OwnOut(t);
      MatchesSplit(t);
      assert Matches(words, path[y]) <= out[y] by {
        if y == 0 {
          assert Matches(words, path[0]) == {};
        }
      }
      out[t] := out[t] + out[y];
      forall u | 0 <= u < states
        ensures out[u] <= Ends(words, path[u])
      {
        if u != t {
          assert out[u] == old(out[u]);
        }
      }
      forall x | 0 <= x < |words|
        ensures x in out[term[x]]
      {
        assert x in old(out[term[x]]);
      }
      forall u | u in L + {t}
        ensures 0 < u < states && Final(u) && (f[u] == 0 || f[u] in L + {t})
      {
        if u != t {
          assert out[u] == old(out[u]) && out[f[u]] == old(out[f[u]]);
        } else {
          assert out[y] == old(out[y]);
        }
      }
    }

    /** Every non-empty keyword the string of `t` ends with is the string
        itself or ends the string of its failure target. */
    lemma MatchesSplit(t: int)
      requires Goto() && OutOk() && 0 < t < states && FailOk(t)
      ensures forall x :: x in Matches(words, path[t]) ==> words[x] == path[t] || x in Matches(words, path[f[t]])
    {
      forall x | x in Matches(words, path[t]) && words[x] != path[t]
        ensures x in Matches(words, path[f[t]])
      {
        var k := term[x];
        assert path[t][|path[t]| - |words[x]|..] == words[x];
        assert ProperSuffix(path[k], path[t]);
        SuffixOfSuffix(words[x], path[f[t]], path[t]);
      }
    }

    /** The failure chain of `s` followed until letter `ch` has an edge:
        the deepest state of the chain with one, whose edge by `ch` leads
        to the deepest state ending the tail of `s`'s string followed by
        `ch`. */
    method FailureChain(s: int, ch: int) returns (failure: int)
      requires Goto() && 0 < s < states && 0 <= ch < MaxChars
      requires forall t {:trigger Shallow(t, s)} :: Shallow(t, s) ==> Final(t)
      ensures 0 <= failure < states && g[failure, ch] != -1 && ProperSuffix(path[failure], path[s])
      ensures DeepestIn(g[failure, ch], path[s][1..] + [Char(ch)])
    {
      assert Shallow(s, s) && Final(s);
      ghost var w := path[s][1..];
      ChainStart(s, ch);
      failure := f[s];
      while g[failure, ch] == -1
        invariant 0 <= failure < states && ProperSuffix(path[failure], path[s]) && ChainOk(failure, w, ch)
        decreases |path[failure]|
      {
        assert failure != 0 && Shallow(failure, s) && Final(failure);
        ChainNext(failure, w, ch);
        SuffixTrans(path[f[failure]], path[failure], path[s]);
        failure := f[failure];
      }
      ChainEnd(failure, w, ch);
    }

    /** State `u` is no deeper than `s`. */
    ghost predicate Shallow(u: int, s: int)
      reads this
      requires Paths()
    {
      0 < u < states && 0 <= s < states && |path[u]| <= |path[s]|
    }

    /** State `x` is the deepest state whose string ends `w`. */
    ghost predicate DeepestIn(x: int, w: string)
      reads this
      requires Paths()
    {
      0 <= x < states && IsSuffix(path[x], w) &&
      forall v {:trigger IsSuffix(path[v], w)} :: 0 <= v < states && IsSuffix(path[v], w) ==> |path[v]| <= |path[x]|
    }

    /** State `x` ends `w`, and no state ending `w` followed by letter
        `ch` is more than one letter longer than `x`'s string. */
    ghost predicate ChainOk(x: int, w: string, ch: int)
      reads this
      requires Paths()
    {
      0 <= x < states && IsSuffix(path[x], w) && 0 <= ch < MaxChars &&
      forall v {:trigger IsSuffix(path[v], w + [Char(ch)])} :: 0 < v < states && IsSuffix(path[v], w + [Char(ch)]) ==> |path[v]| <= |path[x]| + 1
    }

    /** Each state but the root is its parent's string followed by the
        letter of its edge from the parent. */
    lemma ParentOf(v: int)
      requires Goto() && 0 < v < states
      ensures 0 <= parent[v] < states && 0 <= Last(path[v]) < MaxChars
      ensures path[v] == path[parent[v]] + [Char(Last(path[v]))]
      ensures g[parent[v], Last(path[v])] == v
    {
      var l := path[v];
      assert l == l[..|l| - 1] + [l[|l| - 1]];
    }

    /** The chain starts at the failure target of `s`, the deepest state
        ending the tail of `s`'s string. */
    lemma ChainStart(s: int, ch: int)
      requires Goto() && 0 < s < states && 0 <= ch < MaxChars && FailOk(s)
      ensures ChainOk(f[s], path[s][1..], ch)
    {
      var w := path[s][1..];
      TailSuffix(path[f[s]], path[s]);
      forall v | 0 < v < states && IsSuffix(path[v], w + [Char(ch)])
        ensures |path[v]| <= |path[f[s]]| + 1
      {
        ParentOf(v);
        var u := parent[v];
        SuffixDrop(path[u], Char(Last(path[v])), w, Char(ch));
        TailSuffix(path[u], path[s]);
      }
    }

    /** No edge by `ch` from `x`: the chain goes on at the failure target of
        `x`. */
    lemma ChainNext(x: int, w: string, ch: int)
      requires Goto() && ChainOk(x, w, ch) && 0 < x && g[x, ch] == -1 && FailOk(x)
      ensures ChainOk(f[x], w, ch)
    {
      SuffixTrans(path[f[x]], path[x], w);
      forall v | 0 < v < states && IsSuffix(path[v], w + [Char(ch)])
        ensures |path[v]| <= |path[f[x]]| + 1
      {
        ParentOf(v);
        var u := parent[v];
        SuffixDrop(path[u], Char(Last(path[v])), w, Char(ch));
        assert Last(path[v]) == ch;
        SuffixOfSuffix(path[u], path[x], w);
        if |path[u]| == |path[x]| {
          assert path[x][|path[x]| - |path[u]|..] == path[x];
          Injective(u, x);
        } else {
          assert ProperSuffix(path[u], path[x]);
        }
      }
    }

    /** An edge by `ch` from `x`: it leads to the deepest state ending `w`
        followed by `ch`. */
    lemma ChainEnd(x: int, w: string, ch: int)
      requires Goto() && ChainOk(x, w, ch) && g[x, ch] != -1
      ensures DeepestIn(g[x, ch], w + [Char(ch)])
    {
      var y := g[x, ch];
      var wc := w + [Char(ch)];
      if y != 0 {
        assert path[y] == path[x] + [Char(ch)];
        SuffixAppend(path[x], w, Char(ch));
      } else {
        assert wc[|wc| - 0..] == [];
        forall v | 0 <= v < states && IsSuffix(path[v], wc)
          ensures |path[v]| <= |path[y]|
        {
          if v != 0 {
            ParentOf(v);
            var u := parent[v];
            SuffixDrop(path[u], Char(Last(path[v])), w, Char(ch));
            assert Last(path[v]) == ch && path[u] == path[0];
            Injective(u, 0);
          }
        }
      }
    }

    /** The state the machine moves to from `s` on letter `ch`: the goto
        edge of the deepest state of the failure chain that has one. */
    ghost function Delta(s: int, ch: int): (r: int)
      reads this, g, f
      requires Searchable() && 0 <= s < states && 0 <= ch < MaxChars
      ensures 0 <= r < states
      decreases |path[s]|
    {
      if g[s, ch] != -1 then
        g[s, ch]
      else
        assert s != 0;
        Delta(f[s], ch)
    }

    /** The move from `s` on letter `ch` leads to a state whose string ends
        the string of `s` followed by that letter. */
    lemma {:induction false} DeltaSuffix(s: int, ch: int)
      requires Suffixes() && 0 <= s < states && 0 <= ch < MaxChars
      ensures IsSuffix(path[Delta(s, ch)], path[s] + [Char(ch)])
      decreases |path[s]|
    {
      if g[s, ch] == -1 {
        assert s != 0;
        DeltaSuffix(f[s], ch);
        SuffixAppend(path[f[s]], path[s], Char(ch));
        SuffixTrans(path[Delta(s, ch)], path[f[s]] + [Char(ch)], path[s] + [Char(ch)]);
      }
    }

    /** `FindNextState()`: the failure links followed until the letter has
        a goto edge, and that edge taken. */
    method FindNextState(currentState: int, nextInput: char) returns (r: int)
      requires Searchable() && 0 <= currentState < states && 'a' <= nextInput <= 'z'
      ensures Searchable() && r == Delta(currentState, Letter(nextInput))
      ensures 0 <= r < states
    {
      var answer := currentState;
      var ch := Letter(nextInput);
      assert Char(ch) == nextInput;
      while g[answer, ch] == -1
        invariant 0 <= answer < states && Delta(answer, ch) == Delta(currentState, ch)
        decreases |path[answer]|
      {
        assert answer != 0;
        answer := f[answer];
      }
      r := g[answer, ch];
    }

    /** The state after the first `i` letters of the text. */
    ghost function Run(text: string, i: int): (r: int)
      reads this, g, f
      requires Searchable() && Lower(text) && 0 <= i <= |text|
      ensures 0 <= r < states
      decreases i
    {
      if i == 0 then 0 else Delta(Run(text, i - 1), Letter(text[i - 1]))
    }

    /** The string of the state after the first `i` letters of the text
        ends that prefix. */
    lemma {:induction false} RunSuffix(text: string, i: int)
      requires Suffixes() && Lower(text) && 0 <= i <= |text|
      ensures IsSuffix(path[Run(text, i)], text[..i])
      decreases i
    {
      if i > 0 {
        RunSuffix(text, i - 1);
        var p := Run(text, i - 1);
        var r := Run(text, i);
        DeltaSuffix(p, Letter(text[i - 1]));
        assert Char(Letter(text[i - 1])) == text[i - 1] && text[..i] == text[..i - 1] + [text[i - 1]];
        SuffixAppend(path[p], text[..i - 1], text[i - 1]);
        SuffixTrans(path[r], path[p] + [text[i - 1]], text[..i]);
      }
    }

    /** The states after each nonempty prefix of the first `i` letters of
        the text, shortest first. */
    ghost function Runs(text: string, i: int): (r: seq<int>)
      reads this, g, f
      requires Searchable() && Lower(text) && 0 <= i <= |text|
      ensures |r| == i && forall a :: 0 <= a < i ==> 0 <= r[a] < states
      decreases i
    {
      if i == 0 then [] else Runs(text, i - 1) + [Run(text, i)]
    }

    /** `SearchWords()`: the text run through the machine, each position
        recorded once per keyword `j < k` output there. */
    method SearchWords(k: int, text: string) returns (results: seq<int>)
      requires Searchable() && Lower(text) && k <= MaxWords
      ensures results == Recorded(out[..], Runs(text, |text|), k)
    {
      results := [];
      var currentState := 0;
      var i := 0;
      ScanStart(k, text);
      while i < |text|
        invariant Scanned(k, text, i, currentState, results)
      {
        currentState, results := Scan(k, text, i, currentState, results);
        i := i + 1;
      }
    }

    /** After the first `i` letters of `text`: the search is in the state
        those letters lead to and has recorded their positions. */
    ghost predicate Scanned(k: int, text: string, i: int, s: int, results: seq<int>)
      reads this, g, f, out
    {
      Searchable() && Lower(text) && 0 <= i <= |text| &&
      s == Run(text, i) && results == Recorded(out[..], Runs(text, i), k)
    }

    /** Before any letter, the search is at the root and has recorded nothing. */
    lemma ScanStart(k: int, text: string)
      requires Searchable() && Lower(text)
      ensures Scanned(k, text, 0, 0, [])
    {
    }

    /** One turn of the search loop: move on letter `text[i]` and record
        position `i` for the keywords of the state reached. */
    method Scan(k: int, text: string, i: int, s: int, results: seq<int>) returns (s': int, results': seq<int>)
      requires Scanned(k, text, i, s, results) && i < |text|
      ensures Scanned(k, text, i + 1, s', results')
    {
      var hits;
      s', hits := Advance(k, text[i], i, s);
      RecordedSnoc(out[..], Runs(text, i), s', k);
      results' := results + hits;
    }


    /** One letter of `SearchWords()`: the move on letter `x` at position
        `i`, and the positions recorded at the new state. */
    method Advance(k: int, x: char, i: int, s: int) returns (s': int, hits: seq<int>)
      requires Searchable() && 0 <= s < states && 'a' <= x <= 'z'
      ensures Searchable() && 0 <= s' < states && s' == Delta(s, Letter(x)) && hits == Hits(out[s'], k, i)
    {
      s' := FindNextState(s, x);
      hits := Collect(out[s'], k, i);
    }

    /** Every keyword the state after `text[..x + 1]` reports ends at `x`. */
    lemma ReportedEnds(text: string, x: int)
      requires Reports() && Lower(text) && 0 <= x < |text|
      ensures forall j :: j in out[Run(text, x + 1)] ==> 0 <= j < |words| && IsSuffix(words[j], text[..x + 1])
    {
      var r := Run(text, x + 1);
      RunSuffix(text, x + 1);
      forall j | j in out[r]
        ensures 0 <= j < |words| && IsSuffix(words[j], text[..x + 1])
      {
        assert j in Ends(words, path[r]);
        SuffixTrans(words[j], path[r], text[..x + 1]);
      }
    }

    /** From the deepest state ending `w`, the chain of failure links is
        right for `w` followed by any letter `ch`. */
    lemma DeepestChain(x: int, w: string, ch: int)
      requires Goto() && DeepestIn(x, w) && 0 <= ch < MaxChars
      ensures ChainOk(x, w, ch)
    {
      forall v | 0 < v < states && IsSuffix(path[v], w + [Char(ch)])
        ensures |path[v]| <= |path[x]| + 1
      {
        ParentOf(v);
        SuffixDrop(path[parent[v]], Char(Last(path[v])), w, Char(ch));
      }
    }

    /** The move on `ch` from a state whose chain is right for `w` and `ch`
        leads to the deepest state ending `w` followed by `ch`. */
    lemma {:induction false} DeltaDeepest(x: int, w: string, ch: int)
      requires Built() && ChainOk(x, w, ch)
      ensures DeepestIn(Delta(x, ch), w + [Char(ch)])
      decreases |path[x]|
    {
      if g[x, ch] != -1 {
        ChainEnd(x, w, ch);
      } else {
        assert x != 0 && Final(x);
        ChainNext(x, w, ch);
        DeltaDeepest(f[x], w, ch);
      }
    }

    /** The state after the first `i` letters of the text is the deepest
        state whose string ends those letters. */
    lemma {:induction false} RunDeepest(text: string, i: int)
      requires Built() && Lower(text) && 0 <= i <= |text|
      ensures DeepestIn(Run(text, i), text[..i])
      decreases i
    {
      if i == 0 {
        assert text[..0] == [];
      } else {
        var w := text[..i - 1];
        var ch := Letter(text[i - 1]);
        RunDeepest(text, i - 1);
        DeepestChain(Run(text, i - 1), w, ch);
        DeltaDeepest(Run(text, i - 1), w, ch);
        assert Char(ch) == text[i - 1] && text[..i] == w + [text[i - 1]];
      }
    }

    /** Every non-empty keyword that ends at position `x` of the text is
        output by the state the machine is in after that position. */
    lemma ReportedAll(text: string, x: int)
      requires Built() && Lower(text) && 0 <= x < |text|
      ensures forall j :: 0 <= j < |words| && words[j] != [] && IsSuffix(words[j], text[..x + 1]) ==> j in out[Run(text, x + 1)]
    {
      var r := Run(text, x + 1);
      var w := text[..x + 1];
      RunDeepest(text, x + 1);
      forall j | 0 <= j < |words| && words[j] != [] && IsSuffix(words[j], w)
        ensures j in out[r]
      {
        var t := term[j];
        assert IsSuffix(path[t], w);
        SuffixOfSuffix(path[t], path[r], w);
        assert r != 0 && Final(r);
        assert j in Matches(words, path[r]);
      }
    }

    /** A built machine, after position `x` of the text, outputs exactly
        the non-empty keywords that end at `x`. */
    lemma SearchReports(text: string, x: int)
      requires Built() && Lower(text) && 0 <= x < |text|
      ensures forall j :: 0 <= j < |words| && words[j] != [] ==> (j in out[Run(text, x + 1)] <==> IsSuffix(words[j], text[..x + 1]))
    {
      BuiltReports();
      ReportedEnds(text, x);
      ReportedAll(text, x);
    }

    /** Entry `x` of `Runs` is the state after the first `x + 1` letters. */
    lemma {:induction false} RunsAt(text: string, i: int, x: int)
      requires Searchable() && Lower(text) && 0 <= x < i <= |text|
      ensures Runs(text, i)[x] == Run(text, x + 1)
      decreases i
    {
      if x < i - 1 {
        RunsAt(text, i - 1, x);
      }
    }

    /** What `SearchWords()` finds with a built machine: position `x` is
        recorded once for each keyword `j < k` output after it, and those
        are, among the non-empty keywords, exactly the ones ending at `x`. */
    lemma SearchFinds(k: int, text: string, x: int)
      requires Built() && Lower(text) && 0 <= x < |text|
      ensures multiset(Recorded(out[..], Runs(text, |text|), k))[x] == |Bits(out[Run(text, x + 1)], k)|
      ensures forall j :: 0 <= j < |words| && words[j] != [] ==>
        (j in Bits(out[Run(text, x + 1)], k) <==> j < k && IsSuffix(words[j], text[..x + 1]))
    {
      RunsAt(text, |text|, x);
      RecordedCounts(out[..], Runs(text, |text|), k, x);
      SearchReports(text, x);
    }
  }

  /** The positions recorded by a search with output sets `outs` that
      passed through the states `runs`: position `x` once for each keyword
      `j < k` that state `runs[x]` outputs. */
  function Recorded(outs: seq<set<int>>, runs: seq<int>, k: int): seq<int>
    requires forall a :: 0 <= a < |runs| ==> 0 <= runs[a] < |outs|
  {
    if |runs| == 0 then []
    else
      var n := |runs| - 1;
      Recorded(outs, runs[..n], k) + Hits(outs[runs[n]], k, n)
  }
  /** One more step of the search records the hits of the state it reaches. */
  lemma RecordedSnoc(outs: seq<set<int>>, runs: seq<int>, r: int, k: int)
    requires forall a :: 0 <= a < |runs| ==> 0 <= runs[a] < |outs|
    requires 0 <= r < |outs|
    ensures Recorded(outs, runs + [r], k) == Recorded(outs, runs, k) + Hits(outs[r], k, |runs|)
  {
    assert (runs + [r])[..|runs|] == runs;
  }


  /** Positions are recorded in text order, each inside the text. */
  lemma {:induction false} RecordedSorted(outs: seq<set<int>>, runs: seq<int>, k: int)
    requires forall a :: 0 <= a < |runs| ==> 0 <= runs[a] < |outs|
    ensures forall a, b :: 0 <= a <= b < |Recorded(outs, runs, k)| ==> Recorded(outs, runs, k)[a] <= Recorded(outs, runs, k)[b]
    ensures forall a :: 0 <= a < |Recorded(outs, runs, k)| ==> 0 <= Recorded(outs, runs, k)[a] < |runs|
    decreases |runs|
  {
    if |runs| > 0 {
      RecordedSorted(outs, runs[..|runs| - 1], k);
    }
  }

  /** Position `x` is recorded once for each keyword `j < k` that the state
      `runs[x]` outputs. */
  lemma {:induction false} RecordedCounts(outs: seq<set<int>>, runs: seq<int>, k: int, x: int)
    requires forall a :: 0 <= a < |runs| ==> 0 <= runs[a] < |outs|
    requires 0 <= x < |runs|
    ensures multiset(Recorded(outs, runs, k))[x] == |Bits(outs[runs[x]], k)|
    decreases |runs|
  {
    var n := |runs| - 1;
    var pre := runs[..n];
    var o := outs[runs[n]];
    RecordedSorted(outs, pre, k);
    HitsCount(o, k, n);
    CountStep(Recorded(outs, pre, k), Hits(o, k, n), n, x);
    if x < n {
      RecordedCounts(outs, pre, k, x);
      assert pre[x] == runs[x];
    }
  }

  /** Appending a block of `n`s to values below `n` adds the block's
      length to the count of `n` and leaves the other counts. */
  lemma CountStep(pre: seq<int>, h: seq<int>, n: int, x: int)
    requires forall a :: 0 <= a < |pre| ==> pre[a] < n
    requires forall a :: 0 <= a < |h| ==> h[a] == n
    requires x <= n
    ensures multiset(pre + h)[x] == if x == n then |h| else multiset(pre)[x]
  {
    HitsMultiset(h, n);
    if x == n {
      BelowCount(pre, n);
    }
  }

  lemma NoHits(k: int, i: int)
    ensures Hits({}, k, i) == []
  {
    if k > 0 {
      NoHits(k - 1, i);
    }
  }

  lemma {:induction false} HitsMultiset(h: seq<int>, n: int)
    requires forall a :: 0 <= a < |h| ==> h[a] == n
    ensures multiset(h)[n] == |h| && forall x :: x != n ==> multiset(h)[x] == 0
  {
    if h != [] {
      HitsMultiset(h[..|h| - 1], n);
      assert h == h[..|h| - 1] + [h[|h| - 1]];
    }
  }

  lemma {:induction false} BelowCount(s: seq<int>, n: int)
    requires forall a :: 0 <= a < |s| ==> s[a] < n
    ensures multiset(s)[n] == 0
  {
    if s != [] {
      BelowCount(s[..|s| - 1], n);
      assert s == s[..|s| - 1] + [s[|s| - 1]];
    }
  }
}
