/** Trimming white space off both ends, as String.prototype.trim and strings.TrimSpace do. */
module Trimming {

  function TrimLeft<T>(s: seq<T>, blank: T -> bool): (r: seq<T>)
    ensures |r| > 0 ==> !blank(r[0])
  {
    if |s| > 0 && blank(s[0]) then TrimLeft(s[1..], blank) else s
  }

  function TrimRight<T>(s: seq<T>, blank: T -> bool): (r: seq<T>)
    ensures r <= s
    ensures |r| > 0 ==> !blank(r[|r| - 1])
  {
    if |s| > 0 && blank(s[|s| - 1]) then TrimRight(s[..|s| - 1], blank) else s
  }

  function TrimBy<T>(s: seq<T>, blank: T -> bool): seq<T> {
    TrimRight(TrimLeft(s, blank), blank)
  }

  predicate AllBlank<T>(s: seq<T>, blank: T -> bool) {
    forall i :: 0 <= i < |s| ==> blank(s[i])
  }

  /** No blank at either end. */
  predicate Trimmed<T>(s: seq<T>, blank: T -> bool) {
    |s| > 0 ==> !blank(s[0]) && !blank(s[|s| - 1])
  }

  lemma {:induction false} TrimLeftDrops<T>(blanks: seq<T>, s: seq<T>, blank: T -> bool)
    requires AllBlank(blanks, blank) && (|s| > 0 ==> !blank(s[0]))
    ensures TrimLeft(blanks + s, blank) == s
  {
    if |blanks| == 0 {
      assert blanks + s == s;
    } else {
      assert (blanks + s)[1..] == blanks[1..] + s;
      TrimLeftDrops(blanks[1..], s, blank);
    }
  }

  lemma {:induction false} TrimRightDrops<T>(s: seq<T>, blanks: seq<T>, blank: T -> bool)
    requires AllBlank(blanks, blank) && (|s| > 0 ==> !blank(s[|s| - 1]))
    ensures TrimRight(s + blanks, blank) == s
  {
    var n := |blanks|;
    if n == 0 {
      assert s + blanks == s;
    } else {
      assert (s + blanks)[..|s| + n - 1] == s + blanks[..n - 1];
      TrimRightDrops(s, blanks[..n - 1], blank);
    }
  }

  /** Trimming removes exactly the blanks around a text. */
  lemma TrimSurrounded<T>(before: seq<T>, s: seq<T>, after: seq<T>, blank: T -> bool)
    requires AllBlank(before, blank) && AllBlank(after, blank) && Trimmed(s, blank)
    ensures TrimBy(before + s + after, blank) == s
  {
    if |s| == 0 {
      assert before + s + after == (before + after) + [];
      TrimLeftDrops(before + after, [], blank);
    } else {
      assert before + s + after == before + (s + after);
      TrimLeftDrops(before, s + after, blank);
      TrimRightDrops(s, after, blank);
    }
  }

  /** The result has no blank at either end, so a second trim changes nothing. */
  lemma TrimIdempotent<T>(s: seq<T>, blank: T -> bool)
    ensures Trimmed(TrimBy(s, blank), blank)
    ensures TrimBy(TrimBy(s, blank), blank) == TrimBy(s, blank)
  {
    var r := TrimBy(s, blank);
    assert [] + r + [] == r;
    TrimSurrounded([], r, [], blank);
  }

  /** What Go's `strings.TrimSpace` removes. */
  function Space(): nat -> bool {
    (c: nat) => 9 <= c <= 13 || c == 32 || c == 0x85 || c == 0xa0 || c == 0x1680 || 0x2000 <= c <= 0x200a
                || c == 0x2028 || c == 0x2029 || c == 0x202f || c == 0x205f || c == 0x3000
  }

  /** White space in Go: next-line counts too, and the byte order mark does not. */
  lemma SpaceUnits(u: nat)
    ensures Space()(u) <==>
      u in {9, 10, 11, 12, 13, 0x20, 0x85, 0xa0, 0x1680, 0x2000, 0x2001, 0x2002, 0x2003, 0x2004, 0x2005, 0x2006,
            0x2007, 0x2008, 0x2009, 0x200a, 0x2028, 0x2029, 0x202f, 0x205f, 0x3000}
  {
  }

  function TrimSpace(s: seq<nat>): seq<nat> {
    TrimBy(s, Space())
  }
}
