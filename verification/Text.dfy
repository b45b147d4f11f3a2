/**
 The parts of std::string, std::getline and std::map that the server's parsers
 and printers rely on: substring search, cutting at a delimiter, decimal
 numbers, ASCII case and the ascending key order in which a map is iterated.
 */
module Text {

  datatype Option<+T> = None | Some(value: T)

  // ---------- Substring search ----------

  /** `p` stands in `s` at index `i`. */
  predicate OccursAt(s: string, p: string, i: int) {
    0 <= i && i + |p| <= |s| && s[i..i + |p|] == p
  }

  ghost predicate Contains(s: string, p: string) {
    exists i :: OccursAt(s, p, i)
  }

  /** `i` is the least place at or after `from` where `p` stands. */
  predicate FirstOccurs(s: string, p: string, from: nat, i: int) {
    from <= i && OccursAt(s, p, i) && forall j :: from <= j < i ==> !OccursAt(s, p, j)
  }

  lemma {:induction false} FirstExists(s: string, p: string, from: nat, k: int)
    requires from <= k && OccursAt(s, p, k)
    ensures exists i :: 0 <= i <= |s| && FirstOccurs(s, p, from, i)
    decreases k
  {
    if j :| from <= j < k && OccursAt(s, p, j) {
      FirstExists(s, p, from, j);
    } else {
      assert FirstOccurs(s, p, from, k);
    }
  }

  /** std::string::find with a string argument: the least occurrence at or after `from`. */
  function Find(s: string, p: string, from: nat): (r: Option<nat>)
    ensures r.Some? ==> from <= r.value && OccursAt(s, p, r.value)
    ensures r.Some? ==> forall j :: from <= j < r.value ==> !OccursAt(s, p, j)
    ensures r.None? ==> forall j :: from <= j ==> !OccursAt(s, p, j)
  {
    if exists i :: 0 <= i <= |s| && FirstOccurs(s, p, from, i) then
      var i :| 0 <= i <= |s| && FirstOccurs(s, p, from, i);
      Some(i)
    else
      assert forall j :: from <= j ==> !OccursAt(s, p, j) by {
        forall j | from <= j ensures !OccursAt(s, p, j) {
          if OccursAt(s, p, j) { FirstExists(s, p, from, j); }
        }
      }
      None
  }

  /** std::string::find with a character argument. */
  function FindChar(s: string, c: char, from: nat): (r: Option<nat>)
    ensures r.Some? ==> from <= r.value < |s| && s[r.value] == c
    ensures r.Some? ==> forall j :: from <= j < r.value ==> s[j] != c
    ensures r.None? ==> forall j :: from <= j < |s| ==> s[j] != c
    decreases |s| - from
  {
    if from >= |s| then None
    else if s[from] == c then Some(from)
    else FindChar(s, c, from + 1)
  }

  /** std::string::rfind with a character argument. */
  function RFindChar(s: string, c: char): (r: Option<nat>)
    ensures r.Some? ==> r.value < |s| && s[r.value] == c
    ensures r.Some? ==> forall j :: r.value < j < |s| ==> s[j] != c
    ensures r.None? ==> c !in s
  {
    RFindBelow(s, c, |s|)
  }

  function RFindBelow(s: string, c: char, n: nat): (r: Option<nat>)
    requires n <= |s|
    ensures r.Some? ==> r.value < n && s[r.value] == c
    ensures r.Some? ==> forall j :: r.value < j < n ==> s[j] != c
    ensures r.None? ==> forall j :: 0 <= j < n ==> s[j] != c
  {
    if n == 0 then None
    else if s[n - 1] == c then Some(n - 1)
    else RFindBelow(s, c, n - 1)
  }

  /** An occurrence in a part of a string is an occurrence in the whole. */
  lemma OccursInPart(s: string, p: string, lo: nat, hi: nat, i: int)
    requires lo <= hi <= |s|
    ensures OccursAt(s[lo..hi], p, i) <==> OccursAt(s, p, lo + i) && 0 <= i && lo + i + |p| <= hi
  {
    if 0 <= i && lo + i + |p| <= hi {
      var t := s[lo..hi];
      var x, y := t[i..i + |p|], s[lo + i..lo + i + |p|];
      forall k | 0 <= k < |p| ensures x[k] == y[k] {
        assert t[i + k] == s[lo + (i + k)];
      }
      assert x == y;
    }
  }

  /** A pattern of two or more characters: where it stands, its characters stand. */
  lemma OccursChar(s: string, p: string, i: int, k: nat)
    requires OccursAt(s, p, i) && k < |p|
    ensures s[i + k] == p[k]
  {
    assert s[i..i + |p|][k] == p[k];
  }

  /** A pattern that avoids `c` cannot lie across a `c`: it stands on one side of it. */
  lemma OccursBesideChar(a: string, c: char, b: string, p: string)
    requires c !in p && p != ""
    ensures Contains(a + [c] + b, p) ==> Contains(a, p) || Contains(b, p)
  {
    var s := a + [c] + b;
    if Contains(s, p) {
      var i :| OccursAt(s, p, i);
      if i + |p| <= |a| {
        assert s[0..|a|] == a;
        OccursInPart(s, p, 0, |a|, i);
        assert OccursAt(a, p, i);
      } else if i <= |a| {
        OccursChar(s, p, i, |a| - i);
        assert false;
      } else {
        assert s[|a| + 1..|s|] == b;
        OccursInPart(s, p, |a| + 1, |s|, i - |a| - 1);
        assert OccursAt(b, p, i - |a| - 1);
      }
    }
  }

  lemma ContainsInPart(s: string, p: string, lo: nat, hi: nat)
    requires lo <= hi <= |s| && Contains(s[lo..hi], p)
    ensures Contains(s, p)
  {
    var i :| OccursAt(s[lo..hi], p, i);
    OccursInPart(s, p, lo, hi, i);
  }

  // ---------- Cutting at a delimiter ----------

  /** What stands before the first `c`; all of `s` when there is none. */
  function Before(s: string, c: char): (r: string)
    ensures |r| <= |s| && r == s[..|r|] && c !in r
    ensures c in s <==> |r| < |s|
    ensures |r| < |s| ==> s[|r|] == c
  {
    match FindChar(s, c, 0)
    case None => s
    case Some(i) => s[..i]
  }

  /** What stands after the first `c`; nothing when there is none. */
  function After(s: string, c: char): (r: string)
    ensures c in s ==> s == Before(s, c) + [c] + r
    ensures c !in s ==> r == ""
    ensures s != "" ==> |r| < |s|
  {
    match FindChar(s, c, 0)
    case None => ""
    case Some(i) => s[i + 1..]
  }

  lemma CutAt(a: string, c: char, b: string)
    requires c !in a
    ensures Before(a + [c] + b, c) == a && After(a + [c] + b, c) == b
  {
    var s := a + [c] + b;
    assert s[|a|] == c;
    assert forall j :: 0 <= j < |a| ==> s[j] == a[j];
    assert s[..|a|] == a && s[|a| + 1..] == b;
  }

  lemma CutNone(a: string, c: char)
    requires c !in a
    ensures Before(a, c) == a && After(a, c) == ""
  {
  }

  /** Cutting at `c` separates a text without `c` from a section that `c` introduces. */
  lemma CutSection(head: string, c: char, section: string)
    requires c !in head && (section == "" || section[0] == c)
    ensures Before(head + section, c) == head
    ensures After(head + section, c) == if section == "" then "" else section[1..]
  {
    if section == "" {
      assert head + section == head;
      CutNone(head, c);
    } else {
      assert head + section == head + [c] + section[1..];
      CutAt(head, c, section[1..]);
    }
  }

  // ---------- ASCII case ----------

  function LowerChar(c: char): char {
    if 'A' <= c <= 'Z' then (c as int + 32) as char else c
  }

  /** std::transform with ::tolower in the "C" locale. */
  function Lower(s: string): (r: string)
    ensures |r| == |s| && forall i :: 0 <= i < |s| ==> r[i] == LowerChar(s[i])
  {
    seq(|s|, i requires 0 <= i < |s| => LowerChar(s[i]))
  }

  lemma LowerIdempotent(s: string)
    ensures Lower(Lower(s)) == Lower(s)
  {
  }

  // ---------- Decimal numbers ----------

  predicate IsDigit(c: char) { '0' <= c <= '9' }

  predicate AllDigits(s: string) { forall i :: 0 <= i < |s| ==> IsDigit(s[i]) }

  function DigitChar(d: nat): (c: char)
    requires d < 10
    ensures IsDigit(c) && c as int == '0' as int + d
  {
    ('0' as int + d) as char
  }

  /** The decimal text that an output stream writes for an unsigned number. */
  function Digits(n: nat): (s: string)
    ensures s != "" && AllDigits(s)
  {
    if n < 10 then [DigitChar(n)] else Digits(n / 10) + [DigitChar(n % 10)]
  }

  /** The number a run of decimal digits denotes. */
  function Decimal(s: string): nat
    requires AllDigits(s)
  {
    if s == "" then 0 else Decimal(s[..|s| - 1]) * 10 + (s[|s| - 1] as int - '0' as int)
  }

  lemma {:induction false} DecimalOfDigits(n: nat)
    ensures Decimal(Digits(n)) == n
  {
    if n >= 10 {
      DecimalOfDigits(n / 10);
      assert Digits(n)[..|Digits(n)| - 1] == Digits(n / 10);
    }
  }

  // ---------- Key order of std::map ----------

  /** std::less on std::string: lexicographic by character code. */
  predicate LexLe(a: string, b: string) {
    a == "" || (b != "" && (a[0] < b[0] || (a[0] == b[0] && LexLe(a[1..], b[1..]))))
  }

  lemma {:induction false} LexTotal(a: string, b: string)
    ensures LexLe(a, b) || LexLe(b, a)
  {
    if a != "" && b != "" && a[0] == b[0] {
      LexTotal(a[1..], b[1..]);
    }
  }

  lemma {:induction false} LexAntisymmetric(a: string, b: string)
    requires LexLe(a, b) && LexLe(b, a)
    ensures a == b
  {
    if a != "" {
      LexAntisymmetric(a[1..], b[1..]);
      assert a == [a[0]] + a[1..] && b == [b[0]] + b[1..];
    }
  }

  lemma {:induction false} LexTransitive(a: string, b: string, c: string)
    requires LexLe(a, b) && LexLe(b, c)
    ensures LexLe(a, c)
  {
    if a != "" && a[0] == b[0] && b[0] == c[0] {
      LexTransitive(a[1..], b[1..], c[1..]);
    }
  }

  predicate IsLeast(k: string, ks: set<string>) {
    k in ks && forall j :: j in ks ==> LexLe(k, j)
  }

  lemma {:induction false} LeastExists(ks: set<string>)
    requires ks != {}
    ensures exists k :: IsLeast(k, ks)
    decreases |ks|
  {
    var x :| x in ks;
    if ks == {x} {
      LexTotal(x, x);
      assert IsLeast(x, ks);
    } else {
      var rest := ks - {x};
      assert ks == rest + {x};
      LeastExists(rest);
      var y :| IsLeast(y, rest);
      LexTotal(x, y);
      LexTotal(x, x);
      if LexLe(x, y) {
        forall j | j in ks ensures LexLe(x, j) {
          if j != x { LexTransitive(x, y, j); }
        }
        assert IsLeast(x, ks);
      } else {
        assert IsLeast(y, ks);
      }
    }
  }

  lemma LeastUnique(ks: set<string>)
    ensures forall a, b :: IsLeast(a, ks) && IsLeast(b, ks) ==> a == b
  {
    forall a, b | IsLeast(a, ks) && IsLeast(b, ks) ensures a == b {
      LexAntisymmetric(a, b);
    }
  }

  predicate Ascending(ks: seq<string>) {
    forall i, j :: 0 <= i < j < |ks| ==> ks[i] != ks[j] && LexLe(ks[i], ks[j])
  }

  /** The order in which iterating a std::map visits its keys. */
  function SortedKeys(ks: set<string>): (r: seq<string>)
    ensures |r| == |ks|
    ensures forall k :: k in ks <==> k in r
    ensures Ascending(r)
    decreases |ks|
  {
    if ks == {} then []
    else
      LeastExists(ks);
      LeastUnique(ks);
      var k :| IsLeast(k, ks);
      [k] + SortedKeys(ks - {k})
  }

  /** The first character in which the texts differ, and the first text's comes before. */
  predicate DiffersBefore(a: string, b: string, i: nat) {
    i < |a| && i < |b| && a[..i] == b[..i] && a[i] < b[i]
  }

  lemma DiffersBehind(a: string, b: string, i: nat)
    requires a != "" && b != "" && a[0] == b[0]
    ensures DiffersBefore(a, b, i + 1) <==> DiffersBefore(a[1..], b[1..], i)
    ensures !DiffersBefore(a, b, 0)
    ensures a <= b <==> a[1..] <= b[1..]
  {
    assert a == [a[0]] + a[1..] && b == [b[0]] + b[1..];
    if i < |a| - 1 && i < |b| - 1 {
      assert a[..i + 1] == [a[0]] + a[1..][..i] && b[..i + 1] == [b[0]] + b[1..][..i];
    }
  }

  lemma DiffersAtOnce(a: string, b: string)
    requires a != "" && b != "" && a[0] != b[0]
    ensures (exists i: nat :: DiffersBefore(a, b, i)) <==> a[0] < b[0]
    ensures !(a <= b)
  {
    assert a[..0] == b[..0];
    if a[0] < b[0] { assert DiffersBefore(a, b, 0); }
    forall i: nat | i < |a| && i < |b| ensures DiffersBefore(a, b, i) ==> i == 0 {
      if i > 0 { assert a[..i][0] == a[0] && b[..i][0] == b[0]; }
    }
  }

  /** The first character in which two texts differ decides; a text comes before what continues it. */
  lemma {:induction false} LexLeIff(a: string, b: string)
    ensures LexLe(a, b) <==> a <= b || exists i: nat :: DiffersBefore(a, b, i)
    decreases |a|
  {
    if a != "" && b != "" && a[0] == b[0] {
      LexLeIff(a[1..], b[1..]);
      DiffersBehind(a, b, 0);
      if i: nat :| DiffersBefore(a[1..], b[1..], i) {
        DiffersBehind(a, b, i);
        assert DiffersBefore(a, b, i + 1);
      }
      if i: nat :| DiffersBefore(a, b, i) {
        assert i != 0;
        var j := i - 1;
        DiffersBehind(a, b, j);
        assert DiffersBefore(a[1..], b[1..], j);
      }
    } else if a != "" && b != "" {
      DiffersAtOnce(a, b);
    }
  }
}
