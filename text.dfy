/** The string operations the queries rely on: SQLite's BINARY collation,
    `substr(date, 1, 7)` and Python's `str.lower()`. */
module Text {

  /** BINARY collation: SQLite compares TEXT with memcmp over the UTF-8 bytes,
      which orders strings exactly as lexicographic order on code points does;
      a proper prefix sorts first. Python's `<` on `str` is the same order. */
  predicate LexLe(a: string, b: string)
    ensures a <= b ==> LexLe(a, b)
    decreases |a|
  {
    if a == [] then true
    else if b == [] then false
    else if a[0] != b[0] then a[0] < b[0]
    else
      assert a <= b ==> a[1..] <= b[1..];
      LexLe(a[1..], b[1..])
  }

  /** memcmp's rule: after a common prefix of length `k`, the first differing
      character decides the order. */
  lemma {:induction false} LexLeFirstDifference(a: string, b: string, k: nat)
    requires k < |a| && k < |b| && a[..k] == b[..k] && a[k] != b[k]
    ensures LexLe(a, b) <==> a[k] < b[k]
    decreases k
  {
    if k > 0 {
      assert a[0] == b[0] by { assert a[..k][0] == b[..k][0]; }
      assert a[1..][..k - 1] == b[1..][..k - 1] by { assert a[..k][1..] == b[..k][1..]; }
      LexLeFirstDifference(a[1..], b[1..], k - 1);
    }
  }

  predicate LexLt(a: string, b: string) {
    LexLe(a, b) && a != b
  }

  lemma {:induction false} LexLeTotal(a: string, b: string)
    ensures LexLe(a, b) || LexLe(b, a)
    decreases |a|
  {
    if a != [] && b != [] && a[0] == b[0] {
      LexLeTotal(a[1..], b[1..]);
    }
  }

  lemma {:induction false} LexLeTransitive(a: string, b: string, c: string)
    requires LexLe(a, b) && LexLe(b, c)
    ensures LexLe(a, c)
    decreases |a|
  {
    if a != [] && a[0] == b[0] && b[0] == c[0] {
      LexLeTransitive(a[1..], b[1..], c[1..]);
    }
  }

  lemma {:induction false} LexLeAntisymmetric(a: string, b: string)
    requires LexLe(a, b) && LexLe(b, a)
    ensures a == b
    decreases |a|
  {
    if a != [] {
      LexLeAntisymmetric(a[1..], b[1..]);
      assert a == [a[0]] + a[1..] && b == [b[0]] + b[1..];
    }
  }

  lemma {:induction false} LexLeReflexive(a: string)
    ensures LexLe(a, a)
  {
    LexLeTotal(a, a);
  }

  /** `substr(date, 1, 7)`: the first seven characters, or the whole string
      when it is shorter. */
  function MonthOf(date: string): (m: string)
    ensures |m| <= 7 && m <= date
    ensures |date| >= 7 ==> |m| == 7
    ensures |date| < 7 ==> m == date
  {
    if |date| <= 7 then date else date[..7]
  }

  /** Cutting two strings to their first `n` characters keeps their order. */
  lemma {:induction false} LexLeTake(a: string, b: string, n: nat)
    requires LexLe(a, b)
    ensures LexLe(a[..if |a| <= n then |a| else n], b[..if |b| <= n then |b| else n])
    decreases n
  {
    var a' := a[..if |a| <= n then |a| else n];
    var b' := b[..if |b| <= n then |b| else n];
    if n > 0 && a != [] && b != [] && a[0] == b[0] {
      LexLeTake(a[1..], b[1..], n - 1);
      assert a'[1..] == a[1..][..if |a[1..]| <= n - 1 then |a[1..]| else n - 1];
      assert b'[1..] == b[1..][..if |b[1..]| <= n - 1 then |b[1..]| else n - 1];
    }
  }

  /** The month key keeps the order of the dates: ORDER BY month lists months
      in the order their dates sort, so the listing is chronological. */
  lemma {:induction false} MonthOfMonotone(a: string, b: string)
    requires LexLe(a, b)
    ensures LexLe(MonthOf(a), MonthOf(b))
  {
    LexLeTake(a, b, 7);
    assert a[..|a|] == a && b[..|b|] == b;
  }

  /** `str.lower()` on one character, for the ASCII letters. */
  function LowerChar(ch: char): char {
    if 'A' <= ch <= 'Z' then (ch as int + 32) as char else ch
  }

  /** What lower-casing one character guarantees: the result is no ASCII
      capital and lower-cases to itself; a capital and its small letter
      lower-case alike; only capitals change. */
  lemma {:induction false} LowerCharFacts(ch: char)
    ensures !('A' <= LowerChar(ch) <= 'Z')
    ensures LowerChar(LowerChar(ch)) == LowerChar(ch)
    ensures 'a' <= ch <= 'z' ==> LowerChar((ch as int - 32) as char) == ch
    ensures LowerChar(ch) != ch ==> 'A' <= ch <= 'Z'
  {
  }

  /** `str.lower()`, character by character. */
  function Lower(s: string): (r: string)
    ensures |r| == |s|
    ensures forall i :: 0 <= i < |s| ==> r[i] == LowerChar(s[i])
  {
    if s == [] then [] else [LowerChar(s[0])] + Lower(s[1..])
  }

  /** Lower-casing twice changes nothing more; no result holds an ASCII
      capital. */
  lemma {:induction false} LowerIdempotent(s: string)
    ensures Lower(Lower(s)) == Lower(s)
    ensures forall i :: 0 <= i < |s| ==> !('A' <= Lower(s)[i] <= 'Z')
  {
    var l := Lower(s);
    assert forall i :: 0 <= i < |s| ==> Lower(l)[i] == LowerChar(LowerChar(s[i]));
  }
}
