/** strings.TrimSpace, and the order in which Go and Python sort text. */
module Text {
  // unicode.IsSpace
  predicate IsSpace(c: char) {
    var n := c as int;
    || 0x09 <= n <= 0x0D || n == 0x20 || n == 0x85 || n == 0xA0 || n == 0x1680 || 0x2000 <= n <= 0x200A
    || n == 0x2028 || n == 0x2029 || n == 0x202F || n == 0x205F || n == 0x3000
  }

  function TrimLeft(s: string): (t: string)
    ensures t != "" ==> !IsSpace(t[0])
    ensures |t| <= |s|
    ensures s != "" && !IsSpace(s[0]) ==> t == s
    ensures t != "" ==> |t| <= |s| && t[|t| - 1] == s[|s| - 1]
  {
    if s == "" || !IsSpace(s[0]) then s else TrimLeft(s[1..])
  }

  function TrimRight(s: string): (t: string)
    ensures t <= s
    ensures t != "" ==> !IsSpace(t[|t| - 1])
    ensures s != "" && !IsSpace(s[|s| - 1]) ==> t == s
  {
    if s == "" || !IsSpace(s[|s| - 1]) then s else TrimRight(s[..|s| - 1])
  }

  function Trim(s: string): (t: string)
    ensures t != "" ==> !IsSpace(t[0]) && !IsSpace(t[|t| - 1])
  {
    TrimRight(TrimLeft(s))
  }

  // Trimming drops blanks at either end, all of them, and nothing else.
  lemma TrimExactly(s: string) returns (i: nat, j: nat)
    ensures i <= j <= |s| && Trim(s) == s[i..j]
    ensures forall k :: 0 <= k < |s| && !(i <= k < j) ==> IsSpace(s[k])
    ensures i < j ==> !IsSpace(s[i]) && !IsSpace(s[j - 1])
  {
    i := LeftExactly(s);
    var rest := s[i..];
    var length := RightExactly(rest);
    j := i + length;
    assert rest[..length] == s[i..j];
    forall k | 0 <= k < |s| && !(i <= k < j) ensures IsSpace(s[k]) {
      if k >= j { assert s[k] == rest[k - i]; }
    }
  }

  lemma {:induction false} LeftExactly(s: string) returns (i: nat)
    ensures i <= |s| && TrimLeft(s) == s[i..] && forall k :: 0 <= k < i ==> IsSpace(s[k])
  {
    i := 0;
    if s != "" && IsSpace(s[0]) {
      i := LeftExactly(s[1..]);
      assert s[1..][i..] == s[i + 1..];
      forall k | 0 <= k < i + 1 ensures IsSpace(s[k]) { assert k > 0 ==> s[k] == s[1..][k - 1]; }
      i := i + 1;
    }
  }

  lemma {:induction false} RightExactly(s: string) returns (n: nat)
    ensures n <= |s| && TrimRight(s) == s[..n] && forall k :: n <= k < |s| ==> IsSpace(s[k])
  {
    n := |s|;
    if s != "" && IsSpace(s[|s| - 1]) {
      n := RightExactly(s[..|s| - 1]);
      assert s[..|s| - 1][..n] == s[..n];
    }
  }

  // Text that trimming leaves alone.
  predicate Clean(s: string) {
    s != "" && !IsSpace(s[0]) && !IsSpace(s[|s| - 1])
  }

  lemma TrimIdempotent(s: string)
    ensures Clean(s) ==> Trim(s) == s
    ensures Trim(s) == "" || Clean(Trim(s))
    ensures Trim(s) == s && s != "" ==> Clean(s)
  {
  }

  // uniqueSorted, as the set whose sorted list the code works with: values are trimmed and blanks dropped.
  function Unique(values: set<string>): set<string> {
    set v | v in values && Trim(v) != "" :: Trim(v)
  }

  lemma UniqueOfClean(values: set<string>)
    requires forall v :: v in values ==> Clean(v)
    ensures Unique(values) == values
  {
    forall v | v in values ensures Trim(v) == v { TrimIdempotent(v); }
    forall v | v in values ensures v in Unique(values) { assert Trim(v) == v; }
  }

  lemma UniqueIsClean(values: set<string>)
    ensures forall v :: v in Unique(values) ==> Clean(v)
    ensures Unique(Unique(values)) == Unique(values)
  {
    forall v | v in Unique(values) ensures Clean(v) {
      var w :| w in values && Trim(w) == v && v != "";
      TrimIdempotent(w);
    }
    UniqueOfClean(Unique(values));
  }

  // ---- Lexicographic order ----

  predicate Leq(a: string, b: string) {
    a == "" || (b != "" && (a[0] < b[0] || (a[0] == b[0] && Leq(a[1..], b[1..]))))
  }

  lemma LeqTotal(a: string, b: string)
    ensures Leq(a, b) || Leq(b, a)
  {
  }

  lemma LeqAntisymmetric(a: string, b: string)
    requires Leq(a, b) && Leq(b, a)
    ensures a == b
  {
    if a != "" {
      LeqAntisymmetric(a[1..], b[1..]);
      assert a == [a[0]] + a[1..] && b == [b[0]] + b[1..];
    }
  }

  lemma LeqTransitive(a: string, b: string, c: string)
    requires Leq(a, b) && Leq(b, c)
    ensures Leq(a, c)
  {
  }
}
