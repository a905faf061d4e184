/** Bytes, big-endian integers, and the functions of Go's `strings` package
    that the checker applies to host names, as functions on byte strings. */
module Bytes {

  type byte = x: int | 0 <= x < 0x100
  type bytes = seq<byte>
  type u16 = x: int | 0 <= x < 0x1_0000
  type u32 = x: int | 0 <= x < 0x1_0000_0000

  datatype Option<+T> = None | Some(value: T)

  /** A value or an error, for Go's `(value, error)` results. */
  datatype Outcome<+T, +E> = Ok(value: T) | Err(error: E)

  const NEWLINE: byte := '\n' as int
  const DOT: byte := '.' as int
  const COLON: byte := ':' as int
  const SLASH: byte := '/' as int
  const OPEN_BRACKET: byte := '[' as int
  const CLOSE_BRACKET: byte := ']' as int

  /** The bytes of a text in ASCII. */
  function Ascii(s: string): (r: bytes)
    ensures |r| == |s| && forall i | 0 <= i < |s| :: r[i] == s[i] as int % 0x80
  {
    seq(|s|, i requires 0 <= i < |s| => (s[i] as int % 0x80) as byte)
  }

  /** `binary.BigEndian.Uint16(s[i:i+2])` */
  function U16(s: bytes, i: nat): u16
    requires i + 2 <= |s|
  {
    (s[i] as int) * 0x100 + s[i + 1]
  }

  /** `binary.BigEndian.AppendUint16(nil, v)` */
  function PutU16(v: u16): (s: bytes)
    ensures |s| == 2 && U16(s, 0) == v
  {
    [v / 0x100, v % 0x100]
  }

  function U32(s: bytes, i: nat): u32
    requires i + 4 <= |s|
  {
    U16(s, i) * 0x1_0000 + U16(s, i + 2)
  }

  function PutU32(v: u32): (s: bytes)
    ensures |s| == 4 && U32(s, 0) == v
  {
    PutU16(v / 0x1_0000) + PutU16(v % 0x1_0000)
  }

  lemma PutU16OfU16(s: bytes, i: nat)
    requires i + 2 <= |s|
    ensures PutU16(U16(s, i)) == s[i..i + 2]
  {
  }

  lemma PutU32OfU32(s: bytes, i: nat)
    requires i + 4 <= |s|
    ensures PutU32(U32(s, i)) == s[i..i + 4]
  {
    PutU16OfU16(s, i);
    PutU16OfU16(s, i + 2);
    var hi, lo := U16(s, i) as int, U16(s, i + 2) as int;
    assert (hi * 0x1_0000 + lo) / 0x1_0000 == hi && (hi * 0x1_0000 + lo) % 0x1_0000 == lo;
    assert s[i..i + 4] == s[i..i + 2] + s[i + 2..i + 4];
  }

  /** `s[n:]`, and nothing at all when `n` is past the end. */
  function Drop(s: bytes, n: nat): bytes {
    if n <= |s| then s[n..] else []
  }

  /** The concatenation of `parts` with `sep` between them (`strings.Join`). */
  function Join<T>(parts: seq<seq<T>>, sep: seq<T>): seq<T> {
    if |parts| == 0 then []
    else if |parts| == 1 then parts[0]
    else parts[0] + sep + Join(parts[1..], sep)
  }

  /** The pieces of `s` between occurrences of `sep` (`strings.Split`). */
  function Split(s: bytes, sep: byte): (parts: seq<bytes>)
    ensures |parts| > 0
    ensures Join(parts, [sep]) == s
    ensures forall p | p in parts :: sep !in p
  {
    if s == [] then
      [[]]
    else
      var rest := Split(s[1..], sep);
      if s[0] == sep then
        assert Join([[]] + rest, [sep]) == [sep] + Join(rest, [sep]) by { assert ([[]] + rest)[1..] == rest; }
        [[]] + rest
      else
        var parts := [[s[0]] + rest[0]] + rest[1..];
        assert Join(parts, [sep]) == [s[0]] + Join(rest, [sep]) by { assert parts[1..] == rest[1..]; }
        parts
  }

  lemma {:induction false} SplitOfJoin(parts: seq<bytes>, sep: byte)
    requires parts != [] && forall p | p in parts :: sep !in p
    ensures Split(Join(parts, [sep]), sep) == parts
    decreases |parts|, |Join(parts, [sep])|
  {
    var s := Join(parts, [sep]);
    if parts[0] == [] {
      if |parts| > 1 {
        assert s[1..] == Join(parts[1..], [sep]);
        SplitOfJoin(parts[1..], sep);
        assert parts == [[]] + parts[1..];
      }
    } else {
      var first, rest := parts[0], parts[1..];
      var shorter := [first[1..]] + rest;
      assert shorter[1..] == rest && parts == [first] + rest && first == [first[0]] + first[1..];
      assert s[1..] == Join(shorter, [sep]);
      assert first in parts && sep !in first;
      assert forall p | p in shorter :: p == first[1..] || p in parts;
      SplitOfJoin(shorter, sep);
      assert s[0] == first[0] && first[0] in first;
    }
  }

  /** The byte length of the white-space rune that starts `s`, or 0: the runes
      of `unicode.IsSpace` in UTF-8. */
  function SpacePrefix(s: bytes): (k: nat)
    ensures k <= |s|
  {
    if |s| >= 1 && (9 <= s[0] <= 13 || s[0] == 32) then 1
    else if |s| >= 2 && s[0] == 0xC2 && (s[1] == 0x85 || s[1] == 0xA0) then 2
    else if |s| >= 3 && IsWideSpace(s[0], s[1], s[2]) then 3
    else 0
  }

  /** The byte length of the white-space rune that ends `s`, or 0. */
  function SpaceSuffix(s: bytes): (k: nat)
    ensures k <= |s|
  {
    var n := |s|;
    if n >= 1 && (9 <= s[n - 1] <= 13 || s[n - 1] == 32) then 1
    else if n >= 2 && s[n - 2] == 0xC2 && (s[n - 1] == 0x85 || s[n - 1] == 0xA0) then 2
    else if n >= 3 && IsWideSpace(s[n - 3], s[n - 2], s[n - 1]) then 3
    else 0
  }

  /** U+1680, U+2000 to U+200A, U+2028, U+2029, U+202F, U+205F and U+3000. */
  predicate IsWideSpace(a: byte, b: byte, c: byte) {
    || (a == 0xE1 && b == 0x9A && c == 0x80)
    || (a == 0xE2 && b == 0x80 && (0x80 <= c <= 0x8A || c == 0xA8 || c == 0xA9 || c == 0xAF))
    || (a == 0xE2 && b == 0x81 && c == 0x9F)
    || (a == 0xE3 && b == 0x80 && c == 0x80)
  }

  /** `strings.TrimSpace` */
  function TrimSpace(s: bytes): (r: bytes)
    ensures |r| <= |s|
    ensures SpacePrefix(s) > 0 ==> |r| < |s|
    decreases |s|
  {
    if SpacePrefix(s) > 0 then TrimSpace(s[SpacePrefix(s)..])
    else if SpaceSuffix(s) > 0 then TrimSpace(s[..|s| - SpaceSuffix(s)])
    else s
  }

  /** The number of bytes of `s` before its first white space. */
  function WordLength(s: bytes): (n: nat)
    ensures n <= |s|
    ensures s != [] && SpacePrefix(s) == 0 ==> n > 0
    ensures forall k | 0 <= k < n :: SpacePrefix(s[k..]) == 0
    ensures n < |s| ==> SpacePrefix(s[n..]) > 0
  {
    if s == [] || SpacePrefix(s) > 0 then
      assert s[0..] == s;
      0
    else
      assert forall k | 0 < k <= |s| :: s[k..] == s[1..][k - 1..];
      1 + WordLength(s[1..])
  }

  /** The words of `s` between its white space (`strings.Fields`). */
  function Fields(s: bytes): (words: seq<bytes>)
    ensures [] !in words
    decreases |s|
  {
    if s == [] then []
    else if SpacePrefix(s) > 0 then Fields(s[SpacePrefix(s)..])
    else [s[..WordLength(s)]] + Fields(s[WordLength(s)..])
  }

  /** `strings.Trim(s, cutset)` for a cutset of ASCII bytes */
  function Trim(s: bytes, cutset: set<byte>): (r: bytes)
    ensures |r| <= |s|
    ensures r != [] ==> r[0] !in cutset && r[|r| - 1] !in cutset
    ensures (s == [] || (s[0] !in cutset && s[|s| - 1] !in cutset)) ==> r == s
    decreases |s|
  {
    if s == [] then s
    else if s[0] in cutset then Trim(s[1..], cutset)
    else if s[|s| - 1] in cutset then Trim(s[..|s| - 1], cutset)
    else s
  }

  /** The first position of `b` in `s`, or -1 (`strings.IndexByte`). */
  function IndexByte(s: bytes, b: byte): (i: int)
    ensures -1 <= i < |s|
    ensures i >= 0 ==> s[i] == b && forall k | 0 <= k < i :: s[k] != b
    ensures i < 0 ==> b !in s
  {
    if s == [] then -1
    else if s[0] == b then 0
    else
      var i := IndexByte(s[1..], b);
      assert forall k | 0 <= k < i :: s[k + 1] == s[1..][k];
      if i < 0 then -1 else i + 1
  }

  /** The last position of `b` in `s`, or -1 (`strings.LastIndexByte`). */
  function LastIndexByte(s: bytes, b: byte): (i: int)
    ensures -1 <= i < |s|
    ensures i >= 0 ==> s[i] == b && forall k | i < k < |s| :: s[k] != b
    ensures i < 0 ==> b !in s
  {
    if s == [] then -1
    else if s[|s| - 1] == b then |s| - 1
    else LastIndexByte(s[..|s| - 1], b)
  }

  // ----- What trimming and splitting come to -----

  /** Trimming takes off bytes of the cutset at both ends, and nothing else. */
  lemma {:induction false} TrimExactly(s: bytes, cutset: set<byte>) returns (front: bytes, back: bytes)
    ensures s == front + Trim(s, cutset) + back
    ensures forall b | b in front + back :: b in cutset
    decreases |s|
  {
    front, back := [], [];
    if s != [] && s[0] in cutset {
      var more: bytes;
      more, back := TrimExactly(s[1..], cutset);
      front := [s[0]] + more;
      assert forall b | b in front + back :: b == s[0] || b in more + back;
    } else if s != [] && s[|s| - 1] in cutset {
      var more: bytes;
      front, more := TrimExactly(s[..|s| - 1], cutset);
      back := more + [s[|s| - 1]];
      assert forall b | b in front + back :: b == s[|s| - 1] || b in front + more;
    }
  }

  /** White-space runes and nothing else. */
  predicate AllSpace(s: bytes)
    decreases |s|
  {
    s == [] || (SpacePrefix(s) > 0 && AllSpace(s[SpacePrefix(s)..]))
  }

  predicate AllSpaceBackwards(s: bytes)
    decreases |s|
  {
    s == [] || (SpaceSuffix(s) > 0 && AllSpaceBackwards(s[..|s| - SpaceSuffix(s)]))
  }

  /** Trimming space takes off the white space at both ends, and nothing else. */
  lemma {:induction false} TrimSpaceExactly(s: bytes) returns (front: bytes, back: bytes)
    ensures s == front + TrimSpace(s) + back && AllSpace(front) && AllSpaceBackwards(back)
    ensures SpacePrefix(TrimSpace(s)) == 0 && SpaceSuffix(TrimSpace(s)) == 0
    decreases |s|
  {
    hide SpacePrefix, SpaceSuffix, AllSpace, AllSpaceBackwards;
    front, back := [], [];
    NoSpaceInNothing();
    var n, m := SpacePrefix(s), SpaceSuffix(s);
    if n > 0 {
      var more: bytes;
      more, back := TrimSpaceExactly(s[n..]);
      front := s[..n] + more;
      SpaceStays(s[..n], more, s);
    } else if m > 0 {
      var more: bytes;
      front, more := TrimSpaceExactly(s[..|s| - m]);
      back := more + s[|s| - m..];
      SpaceStaysBehind(more, s[|s| - m..], s);
    }
  }

  lemma NoSpaceInNothing()
    ensures AllSpace([]) && AllSpaceBackwards([])
  {
  }

  lemma SpaceStays(rune: bytes, more: bytes, s: bytes)
    requires AllSpace(more) && rune != [] && SpacePrefix(s) == |rune| && rune + more <= s
    ensures AllSpace(rune + more)
  {
    assert forall i | 0 <= i < |rune + more| :: (rune + more)[i] == s[i];
    assert SpacePrefix(rune + more) == |rune|;
    assert (rune + more)[|rune|..] == more;
  }

  lemma SpaceStaysBehind(more: bytes, rune: bytes, s: bytes)
    requires AllSpaceBackwards(more) && rune != [] && SpaceSuffix(s) == |rune|
    requires |more + rune| <= |s| && s[|s| - |more + rune|..] == more + rune
    ensures AllSpaceBackwards(more + rune)
  {
    var t, d := more + rune, |s| - |more + rune|;
    assert forall i | 0 <= i < |t| :: t[i] == s[d..][i] == s[d + i];
    assert SpaceSuffix(t) == |rune|;
    assert t[..|more|] == more;
  }

  /** The UTF-8 encoding of a code point. */
  function Utf8(c: int): (s: bytes)
    requires 0 <= c < 0x11_0000
    ensures 1 <= |s| <= 4
  {
    if c < 0x80 then [c]
    else if c < 0x800 then [0xC0 + c / 0x40, 0x80 + c % 0x40]
    else if c < 0x1_0000 then [0xE0 + c / 0x1000, 0x80 + c / 0x40 % 0x40, 0x80 + c % 0x40]
    else [0xF0 + c / 0x4_0000, 0x80 + c / 0x1000 % 0x40, 0x80 + c / 0x40 % 0x40, 0x80 + c % 0x40]
  }

  /** `unicode.IsSpace` */
  predicate IsSpace(c: int) {
    || 0x09 <= c <= 0x0D || c == 0x20 || c == 0x85 || c == 0xA0 || c == 0x1680
    || 0x2000 <= c <= 0x200A || c == 0x2028 || c == 0x2029 || c == 0x202F || c == 0x205F || c == 0x3000
  }

  /** The runes recognized as white space are exactly those of `unicode.IsSpace`. */
  lemma SpacesAreUnicode(c: int, rest: bytes)
    requires 0 <= c < 0x11_0000
    ensures SpacePrefix(Utf8(c) + rest) == if IsSpace(c) then |Utf8(c)| else 0
    ensures SpaceSuffix(rest + Utf8(c)) == if IsSpace(c) then |Utf8(c)| else 0
  {
  }

  /** Two words with a space between them. */
  lemma FieldsOfTwo(a: bytes, b: bytes)
    requires a != [] && b != [] && WordLength(a) == |a| && WordLength(b) == |b|
    ensures Fields(a + [' ' as int] + b) == [a, b]
  {
    hide *;
    var s, rest := a + [' ' as int] + b, [' ' as int] + b;
    FirstWord(a, b);
    FieldsOfOne(b);
    NextField(s);
    NextField(rest);
  }

  lemma FirstWord(a: bytes, b: bytes)
    requires a != [] && WordLength(a) == |a|
    ensures var s, rest := a + [' ' as int] + b, [' ' as int] + b;
            && WordLength(s) == |a| && SpacePrefix(s) == 0 && s[..|a|] == a && s[|a|..] == rest
            && SpacePrefix(rest) == 1 && rest[1..] == b
  {
    var s, rest := a + [' ' as int] + b, [' ' as int] + b;
    WordBefore(a, b);
    assert s[0..] == s && SpacePrefix(s[0..]) == 0;
    hide WordLength;
    assert rest[0] == 32 && s[..|a|] == a && s[|a|..] == rest && rest[1..] == b;
  }

  lemma NextField(s: bytes)
    requires s != []
    ensures Fields(s)
         == if SpacePrefix(s) > 0 then Fields(s[SpacePrefix(s)..])
            else [s[..WordLength(s)]] + Fields(s[WordLength(s)..])
  {
  }

  lemma FieldsOfOne(word: bytes)
    requires word != [] && WordLength(word) == |word|
    ensures Fields(word) == [word]
  {
    assert word[0..] == word && SpacePrefix(word) == 0;
    assert word[..|word|] == word && word[|word|..] == [];
    hide SpacePrefix, WordLength;
    assert Fields([]) == [];
  }

  lemma {:induction false} WordBefore(a: bytes, b: bytes)
    requires WordLength(a) == |a|
    ensures WordLength(a + [' ' as int] + b) == |a|
  {
    var s := a + [' ' as int] + b;
    if a == [] {
      assert s[0] == 32;
    } else {
      assert a[0..] == a && SpacePrefix(a) == 0;
      assert s[1..] == a[1..] + [' ' as int] + b;
      assert SpacePrefix(s) == 0;
      WordBefore(a[1..], b);
    }
  }
}
