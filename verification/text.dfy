/** The string functions the packet-filter grammar is written with. */
module Text {
  import opened Net

  // Decimal numbers

  predicate IsDigit(c: char) {
    '0' <= c <= '9'
  }

  function DigitChar(d: nat): char
    requires d < 10
  {
    '0' + d as char
  }

  function DigitValue(c: char): nat
    requires IsDigit(c)
  {
    c as int - '0' as int
  }

  function FormatUint(n: nat): string {
    if n < 10 then [DigitChar(n)] else FormatUint(n / 10) + [DigitChar(n % 10)]
  }

  function DigitsValue(s: string): nat
    requires forall i :: 0 <= i < |s| ==> IsDigit(s[i])
  {
    if s == [] then 0 else 10 * DigitsValue(s[..|s| - 1]) + DigitValue(s[|s| - 1])
  }

  /** A decimal number no greater than `max`; leading zeros are accepted. */
  function ParseUint(s: string, max: nat): Option<nat> {
    if s == [] || exists i :: 0 <= i < |s| && !IsDigit(s[i]) then None
    else if DigitsValue(s) > max then None
    else Some(DigitsValue(s))
  }

  lemma {:induction false} FormatDigits(n: nat)
    ensures FormatUint(n) != []
    ensures forall i :: 0 <= i < |FormatUint(n)| ==> IsDigit(FormatUint(n)[i])
    ensures DigitsValue(FormatUint(n)) == n
  {
    if n < 10 {
      assert FormatUint(n)[..0] == [];
    } else {
      FormatDigits(n / 10);
      assert FormatUint(n)[..|FormatUint(n)| - 1] == FormatUint(n / 10);
    }
  }

  /** Printing a number and reading it back gives the number. */
  lemma ParseFormat(n: nat, max: nat)
    requires n <= max
    ensures ParseUint(FormatUint(n), max) == Some(n)
  {
    FormatDigits(n);
  }

  /** A text reads as a number when it has digits only; each further digit counts ten times less. */
  lemma DecimalReads(s: string, c: char, max: nat, n: nat)
    ensures ParseUint([c], max).Some? <==> '0' <= c <= '9' && c as int - 48 <= max
    ensures ParseUint([c], max) == Some(n) ==> n == c as int - 48
    ensures ParseUint(s, max) == Some(n) && '0' <= c <= '9' && 10 * n + (c as int - 48) <= max ==>
      ParseUint(s + [c], max) == Some(10 * n + (c as int - 48))
    ensures ParseUint("", max) == None && (ParseUint(s, max) == Some(n) ==> n <= max)
  {
    assert [c][..0] == [];
    assert IsDigit([c][0]) <==> '0' <= c <= '9';
    assert '0' <= c <= '9' ==> DigitsValue([c]) == c as int - 48;
    if ParseUint(s, max) == Some(n) && '0' <= c <= '9' {
      var t := s + [c];
      assert t[..|t| - 1] == s;
      assert forall i :: 0 <= i < |t| ==> IsDigit(t[i]);
    }
  }

  // Splitting

  datatype Parts = Parts(before: string, after: string, found: bool)

  /** The text around the first separator. */
  function Cut(s: string, sep: char): Parts {
    if s == [] then Parts([], [], false)
    else if s[0] == sep then Parts([], s[1..], true)
    else
      var rest := Cut(s[1..], sep);
      Parts([s[0]] + rest.before, rest.after, rest.found)
  }

  lemma {:induction false} CutParts(s: string, sep: char)
    ensures var p := Cut(s, sep);
            && p.found == (sep in s)
            && sep !in p.before
            && (p.found ==> s == p.before + [sep] + p.after)
            && (!p.found ==> s == p.before && p.after == [])
  {
    if s != [] && s[0] != sep {
      CutParts(s[1..], sep);
    }
  }

  lemma {:induction false} CutJoined(a: string, sep: char, b: string)
    requires sep !in a
    ensures Cut(a + [sep] + b, sep) == Parts(a, b, true)
  {
    var s := a + [sep] + b;
    if a == [] {
      assert s[1..] == b;
    } else {
      assert s[1..] == a[1..] + [sep] + b;
      CutJoined(a[1..], sep, b);
    }
  }

  lemma CutNone(a: string, sep: char)
    requires sep !in a
    ensures Cut(a, sep) == Parts(a, [], false)
  {
    CutParts(a, sep);
  }

  predicate IsSpace(c: char) {
    c == ' ' || c == '\t' || c == '\n' || c == '\r'
  }

  /** The text is its own trimmed form. */
  predicate Trimmed(s: string) {
    s == [] || (!IsSpace(s[0]) && !IsSpace(s[|s| - 1]))
  }

  /** The text is its own lower-case form. */
  predicate LowerCase(s: string) {
    forall i :: 0 <= i < |s| ==> !('A' <= s[i] <= 'Z')
  }

  // The byte order of strings

  predicate Less(a: string, b: string) {
    b != [] && (a == [] || a[0] < b[0] || (a[0] == b[0] && Less(a[1..], b[1..])))
  }

  lemma {:induction false} LessTotal(a: string, b: string)
    ensures Less(a, b) || a == b || Less(b, a)
  {
    if a != [] && b != [] && a[0] == b[0] {
      LessTotal(a[1..], b[1..]);
      assert a == [a[0]] + a[1..] && b == [b[0]] + b[1..];
    }
  }

  lemma {:induction false} LessTransitive(a: string, b: string, c: string)
    requires Less(a, b) && Less(b, c)
    ensures Less(a, c)
  {
    if a != [] && a[0] == b[0] && b[0] == c[0] {
      LessTransitive(a[1..], b[1..], c[1..]);
    }
  }

  lemma {:induction false} LessIrreflexive(a: string)
    ensures !Less(a, a)
  {
    if a != [] {
      LessIrreflexive(a[1..]);
    }
  }

  /** The texts agree up to a place where the first ends or has the smaller character. */
  ghost predicate SmallerAt(a: string, b: string, k: nat) {
    k <= |a| && k < |b| && a[..k] == b[..k] && (k == |a| || a[k] < b[k])
  }

  lemma {:induction false} LessExactly(a: string, b: string)
    ensures Less(a, b) <==> exists k: nat :: SmallerAt(a, b, k)
  {
    if a == [] || b == [] || a[0] != b[0] {
      assert Less(a, b) ==> SmallerAt(a, b, 0);
      forall k: nat | SmallerAt(a, b, k)
        ensures Less(a, b)
      {
        assert k > 0 ==> a[..k][0] == b[..k][0];
      }
    } else {
      LessExactly(a[1..], b[1..]);
      assert a == [a[0]] + a[1..] && b == [b[0]] + b[1..];
      if k: nat :| SmallerAt(a[1..], b[1..], k) {
        assert a[..k + 1] == [a[0]] + a[1..][..k] && b[..k + 1] == [b[0]] + b[1..][..k];
        assert SmallerAt(a, b, k + 1);
      }
      if k: nat :| SmallerAt(a, b, k) {
        assert k > 0;
        assert a[1..][..k - 1] == a[..k][1..] && b[1..][..k - 1] == b[..k][1..];
        assert SmallerAt(a[1..], b[1..], k - 1);
      }
    }
  }

  // Sorting by a key and dropping repeated keys

  function Insert<T>(x: T, s: seq<T>, key: T -> string): seq<T> {
    if s == [] || !Less(key(s[0]), key(x)) then [x] + s else [s[0]] + Insert(x, s[1..], key)
  }

  function Sort<T>(s: seq<T>, key: T -> string): seq<T> {
    if s == [] then [] else Insert(s[0], Sort(s[1..], key), key)
  }

  /** Keeps the first of each run of equal keys. */
  function Compact<T>(s: seq<T>, key: T -> string): (r: seq<T>)
    ensures s != [] ==> r != [] && r[0] == s[0]
  {
    if |s| <= 1 then s
    else
      var r := Compact(s[1..], key);
      [s[0]] + if key(s[0]) == key(s[1]) then r[1..] else r
  }

  predicate Sorted<T>(s: seq<T>, key: T -> string) {
    forall i :: 0 < i < |s| ==> !Less(key(s[i]), key(s[i - 1]))
  }

  predicate StrictlySorted<T>(s: seq<T>, key: T -> string) {
    forall i :: 0 < i < |s| ==> Less(key(s[i - 1]), key(s[i]))
  }

  lemma {:induction false} InsertSorted<T>(x: T, s: seq<T>, key: T -> string)
    requires Sorted(s, key)
    ensures Sorted(Insert(x, s, key), key)
    ensures Insert(x, s, key)[0] == x || (s != [] && Insert(x, s, key)[0] == s[0])
  {
    if s == [] || !Less(key(s[0]), key(x)) {
    } else {
      InsertSorted(x, s[1..], key);
      LessTransitiveNot(key(s[0]), key(x));
      var r := Insert(x, s[1..], key);
      assert forall i :: 0 < i < |[s[0]] + r| ==> ([s[0]] + r)[i] == r[i - 1];
    }
  }

  lemma {:induction false} InsertMembers<T>(x: T, s: seq<T>, key: T -> string, y: T)
    ensures y in Insert(x, s, key) <==> y == x || y in s
  {
    if s != [] && Less(key(s[0]), key(x)) {
      InsertMembers(x, s[1..], key, y);
      assert s == [s[0]] + s[1..];
    }
  }

  lemma {:induction false} SortMembers<T>(s: seq<T>, key: T -> string, y: T)
    ensures y in Sort(s, key) <==> y in s
  {
    if s != [] {
      InsertMembers(s[0], Sort(s[1..], key), key, y);
      SortMembers(s[1..], key, y);
      assert s == [s[0]] + s[1..];
    }
  }

  lemma LessTransitiveNot(a: string, b: string)
    requires Less(a, b)
    ensures !Less(b, a)
  {
    if Less(b, a) {
      LessTransitive(a, b, a);
      LessIrreflexive(a);
    }
  }

  lemma {:induction false} SortSorts<T>(s: seq<T>, key: T -> string)
    ensures Sorted(Sort(s, key), key)
    ensures forall y :: y in Sort(s, key) <==> y in s
  {
    if s != [] {
      SortSorts(s[1..], key);
      InsertSorted(s[0], Sort(s[1..], key), key);
    }
    forall y
      ensures y in Sort(s, key) <==> y in s
    {
      SortMembers(s, key, y);
    }
  }

  function KeySet<T>(s: seq<T>, key: T -> string): set<string> {
    if s == [] then {} else {key(s[0])} + KeySet(s[1..], key)
  }

  lemma {:induction false} KeySetHas<T>(s: seq<T>, key: T -> string, k: string)
    ensures k in KeySet(s, key) <==> exists x :: x in s && key(x) == k
  {
    if s != [] {
      KeySetHas(s[1..], key, k);
      assert s == [s[0]] + s[1..];
    }
  }

  lemma ReplaceHead<T>(x: T, r: seq<T>, key: T -> string)
    requires StrictlySorted(r, key) && r != [] && key(r[0]) == key(x)
    ensures StrictlySorted([x] + r[1..], key)
    ensures KeySet([x] + r[1..], key) == KeySet(r, key)
  {
    var t := [x] + r[1..];
    assert t[1..] == r[1..];
    forall i | 0 < i < |t|
      ensures Less(key(t[i - 1]), key(t[i]))
    {
      assert t[i] == r[i];
    }
  }

  lemma Prepend<T>(x: T, r: seq<T>, key: T -> string)
    requires StrictlySorted(r, key) && r != [] && Less(key(x), key(r[0]))
    ensures StrictlySorted([x] + r, key)
    ensures KeySet([x] + r, key) == {key(x)} + KeySet(r, key)
  {
    var t := [x] + r;
    assert t[1..] == r;
    assert forall i :: 0 < i < |t| ==> t[i] == r[i - 1];
  }

  /** Compacting a sorted list leaves every key once, in order, and keeps members only. */
  lemma {:induction false} CompactSorted<T>(s: seq<T>, key: T -> string)
    requires Sorted(s, key)
    ensures StrictlySorted(Compact(s, key), key)
    ensures forall y :: y in Compact(s, key) ==> y in s
    ensures KeySet(Compact(s, key), key) == KeySet(s, key)
  {
    if |s| > 1 {
      CompactSorted(s[1..], key);
      LessTotal(key(s[0]), key(s[1]));
      var r := Compact(s[1..], key);
      if key(s[0]) == key(s[1]) {
        ReplaceHead(s[0], r, key);
      } else {
        Prepend(s[0], r, key);
      }
      forall y | y in Compact(s, key)
        ensures y in s
      {
        assert y == s[0] || y in r;
        assert y in r ==> y in s[1..];
      }
    }
  }

  lemma KeySetOfSame<T>(s: seq<T>, t: seq<T>, key: T -> string)
    requires forall x :: x in s <==> x in t
    ensures KeySet(s, key) == KeySet(t, key)
  {
    forall k
      ensures k in KeySet(s, key) <==> k in KeySet(t, key)
    {
      KeySetHas(s, key, k);
      KeySetHas(t, key, k);
    }
  }

  function SortCompact<T>(s: seq<T>, key: T -> string): seq<T> {
    Compact(Sort(s, key), key)
  }

  lemma SortCompactSorted<T>(s: seq<T>, key: T -> string)
    ensures var r := SortCompact(s, key);
            && StrictlySorted(r, key)
            && (forall y :: y in r ==> y in s)
            && KeySet(r, key) == KeySet(s, key)
            && (s != [] ==> r != [])
  {
    SortSorts(s, key);
    CompactSorted(Sort(s, key), key);
    KeySetOfSame(Sort(s, key), s, key);
    forall y | y in SortCompact(s, key)
      ensures y in s
    {
      SortMembers(s, key, y);
    }
    if s != [] {
      assert s[0] in Sort(s, key);
    }
  }

  /** When keys tell the members apart, exactly the repeated members go. */
  lemma SortCompactMembers<T>(s: seq<T>, key: T -> string, x: T)
    requires forall y, z :: y in s && z in s && key(y) == key(z) ==> y == z
    ensures x in SortCompact(s, key) <==> x in s
  {
    SortCompactSorted(s, key);
    if x in s {
      KeySetHas(s, key, key(x));
      KeySetHas(SortCompact(s, key), key, key(x));
      var y :| y in SortCompact(s, key) && key(y) == key(x);
      assert y in s;
    }
  }

  /** A strictly sorted list is left alone. */
  lemma {:induction false} SortCompactFixed<T>(s: seq<T>, key: T -> string)
    requires StrictlySorted(s, key)
    ensures Sort(s, key) == s && Compact(s, key) == s && SortCompact(s, key) == s
  {
    if s != [] {
      SortCompactFixed(s[1..], key);
      if |s| > 1 {
        assert Less(key(s[0]), key(s[1]));
        LessTransitiveNot(key(s[0]), key(s[1]));
        LessIrreflexive(key(s[0]));
      }
    }
  }

  /** A strictly sorted list is determined by its members. */
  lemma {:induction false} StrictlySortedUnique<T>(s: seq<T>, t: seq<T>, key: T -> string)
    requires StrictlySorted(s, key) && StrictlySorted(t, key)
    requires forall x :: x in s <==> x in t
    ensures s == t
  {
    assert s != [] ==> s[0] in t;
    assert t != [] ==> t[0] in s;
    if s != [] {
      HeadIsLeast(s, t[0], key);
      HeadIsLeast(t, s[0], key);
      if s[0] != t[0] {
        LessTransitiveNot(key(s[0]), key(t[0]));
      }
      forall x | x in s[1..]
        ensures x in t[1..]
      {
        TailIsGreater(s, x, key);
        LessIrreflexive(key(s[0]));
        assert x in s;
      }
      forall x | x in t[1..]
        ensures x in s[1..]
      {
        TailIsGreater(t, x, key);
        LessIrreflexive(key(s[0]));
        assert x in t;
      }
      StrictlySortedUnique(s[1..], t[1..], key);
    }
  }

  lemma {:induction false} TailIsGreater<T>(s: seq<T>, x: T, key: T -> string)
    requires StrictlySorted(s, key) && s != [] && x in s[1..]
    ensures Less(key(s[0]), key(x))
  {
    assert Less(key(s[0]), key(s[1]));
    if x != s[1] {
      assert x in s[1..][1..];
      TailIsGreater(s[1..], x, key);
      LessTransitive(key(s[0]), key(s[1]), key(x));
    }
  }

  lemma HeadIsLeast<T>(s: seq<T>, x: T, key: T -> string)
    requires StrictlySorted(s, key) && x in s
    ensures x == s[0] || Less(key(s[0]), key(x))
  {
    if x != s[0] {
      assert x in s[1..];
      TailIsGreater(s, x, key);
    }
  }

  // Joining

  function Join(parts: seq<string>, sep: char): string {
    if parts == [] then [] else if |parts| == 1 then parts[0] else parts[0] + [sep] + Join(parts[1..], sep)
  }

  lemma {:induction false} JoinLacks(parts: seq<string>, sep: char, c: char)
    requires c != sep && forall p :: p in parts ==> c !in p
    ensures c !in Join(parts, sep)
  {
    if |parts| > 1 {
      JoinLacks(parts[1..], sep, c);
    }
  }

  /** Non-empty lists of texts without the separator are told apart by their joined form. */
  lemma {:induction false} JoinInjective(a: seq<string>, b: seq<string>, sep: char)
    requires a != [] && b != [] && Join(a, sep) == Join(b, sep)
    requires forall p :: p in a ==> sep !in p
    requires forall p :: p in b ==> sep !in p
    ensures a == b
  {
    if |a| == 1 {
      CutNone(a[0], sep);
    } else {
      CutJoined(a[0], sep, Join(a[1..], sep));
    }
    if |b| == 1 {
      CutNone(b[0], sep);
    } else {
      CutJoined(b[0], sep, Join(b[1..], sep));
    }
    if |a| > 1 {
      JoinInjective(a[1..], b[1..], sep);
      assert a == [a[0]] + a[1..] && b == [b[0]] + b[1..];
    }
  }
}
