/** The functions of Go's `strings` package that the checker applies to report
    text, on strings of Unicode characters. */
module Text {

  predicate OccursAt(s: string, t: string, i: nat)
    requires i <= |s|
  {
    i + |t| <= |s| && s[i..i + |t|] == t
  }

  /** `strings.Contains(s, t)` */
  predicate Contains(s: string, t: string) {
    exists i | 0 <= i <= |s| :: OccursAt(s, t, i)
  }

  /** `unicode.ToLower` as far as it can produce an ASCII letter: A to Z, and
      the two letters outside ASCII that have one as their lower case. */
  function LowerChar(c: char): char {
    if 'A' <= c <= 'Z' then (c as int + 32) as char
    else if c == '\U{0130}' then 'i'
    else if c == '\U{212A}' then 'k'
    else c
  }

  /** `unicode.ToUpper` as far as it can produce an ASCII letter. */
  function UpperChar(c: char): char {
    if 'a' <= c <= 'z' then (c as int - 32) as char
    else if c == '\U{0131}' then 'I'
    else if c == '\U{017F}' then 'S'
    else c
  }

  function ToLower(s: string): (r: string)
    ensures |r| == |s| && forall i | 0 <= i < |s| :: r[i] == LowerChar(s[i])
  {
    seq(|s|, i requires 0 <= i < |s| => LowerChar(s[i]))
  }

  function ToUpper(s: string): (r: string)
    ensures |r| == |s| && forall i | 0 <= i < |s| :: r[i] == UpperChar(s[i])
  {
    seq(|s|, i requires 0 <= i < |s| => UpperChar(s[i]))
  }

  /** `strings.ReplaceAll(s, " ", "_")` */
  function Underscored(s: string): (r: string)
    ensures |r| == |s| && forall i | 0 <= i < |s| :: r[i] == if s[i] == ' ' then '_' else s[i]
  {
    seq(|s|, i requires 0 <= i < |s| => if s[i] == ' ' then '_' else s[i])
  }

  lemma ContainsInPrefix(s: string, rest: string, t: string)
    requires Contains(s, t)
    ensures Contains(s + rest, t)
  {
    var i :| 0 <= i <= |s| && OccursAt(s, t, i);
    assert (s + rest)[i..i + |t|] == s[i..i + |t|];
    assert OccursAt(s + rest, t, i);
  }

  lemma ToLowerConcat(a: string, b: string)
    ensures ToLower(a + b) == ToLower(a) + ToLower(b)
  {
  }

  lemma ContainsInSuffix(front: string, s: string, t: string)
    requires Contains(s, t)
    ensures Contains(front + s, t)
  {
    var i :| 0 <= i <= |s| && OccursAt(s, t, i);
    var j := |front| + i;
    assert (front + s)[j..j + |t|] == s[i..i + |t|];
    assert OccursAt(front + s, t, j);
  }

  lemma LacksChar(s: string, t: string, c: char)
    requires c in t && c !in s
    ensures !Contains(s, t)
  {
  }

  /** `a` is always followed by something other than `b`. */
  predicate LacksPair(s: string, a: char, b: char) {
    forall i | 0 <= i < |s| :: s[i] == a ==> i + 1 < |s| && s[i + 1] != b
  }

  lemma ContainsHasPairs(s: string, t: string, k: nat)
    requires Contains(s, t) && k + 1 < |t|
    ensures !LacksPair(s, t[k], t[k + 1])
  {
  }

  /** `fmt.Sprintf("%d", n)` */
  function Decimal(n: nat): string {
    if n < 10 then [('0' as int + n) as char] else Decimal(n / 10) + [('0' as int + n % 10) as char]
  }

  /** Containing is having as a part. */
  lemma ContainsExactly(s: string, t: string)
    ensures Contains(s, t) <==> exists front, back :: s == front + t + back
  {
    if Contains(s, t) {
      var i :| 0 <= i <= |s| && OccursAt(s, t, i);
      assert s == s[..i] + t + s[i + |t|..];
    }
    forall front, back | s == front + t + back
      ensures Contains(s, t)
    {
      assert OccursAt(s, t, |front|);
    }
  }

  /** On ASCII, only the 26 letters have two cases, 32 code points apart. */
  lemma AsciiCases(c: char)
    requires c < '\U{0080}'
    ensures LowerChar(c) as int == if 65 <= c as int <= 90 then c as int + 32 else c as int
    ensures UpperChar(c) as int == if 97 <= c as int <= 122 then c as int - 32 else c as int
  {
  }

  /** The number that a text of digits stands for. */
  function DecimalValue(s: string): int {
    if s == "" then 0 else 10 * DecimalValue(s[..|s| - 1]) + (s[|s| - 1] as int - '0' as int)
  }

  /** A printed number is its decimal digits, without a leading zero. */
  lemma {:induction false} DecimalReadsBack(n: nat)
    ensures DecimalValue(Decimal(n)) == n && Decimal(n) != ""
    ensures forall c | c in Decimal(n) :: '0' <= c <= '9'
    ensures n > 0 ==> Decimal(n)[0] != '0'
  {
    var s := Decimal(n);
    if n >= 10 {
      DecimalReadsBack(n / 10);
      assert s[..|s| - 1] == Decimal(n / 10);
    } else {
      assert s[..0] == "";
    }
  }
}
