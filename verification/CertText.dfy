/** The length-prefixed and hexadecimal codecs of internal/checker/cert.go. */
module CertText {
  import opened Bytes

  // ----- SCT lists (section 3.3 of RFC 6962, as a bare TLS list) -----

  predicate ValidItems(items: seq<bytes>) {
    forall x | x in items :: |x| < 0x1_0000
  }

  function ItemsBytes(items: seq<bytes>): bytes
    requires ValidItems(items)
  {
    if items == [] then [] else PutU16(|items[0]|) + items[0] + ItemsBytes(items[1..])
  }

  function SCTList(items: seq<bytes>): bytes
    requires ValidItems(items) && |ItemsBytes(items)| < 0x1_0000
  {
    PutU16(|ItemsBytes(items)|) + ItemsBytes(items)
  }

  /** The items that can be read whole from the front of `s`. */
  function Items(s: bytes): (items: seq<bytes>)
    ensures ValidItems(items)
    decreases |s|
  {
    if |s| < 2 || 2 + U16(s, 0) > |s| then []
    else [s[2..2 + U16(s, 0)]] + Items(s[2 + U16(s, 0)..])
  }

  /** The part of an extension value that its declared length covers, as far as it is there. */
  function Window(raw: bytes): (s: bytes)
    ensures |s| <= |raw|
  {
    if |raw| < 2 then []
    else if U16(raw, 0) <= |raw| - 2 then raw[2..2 + U16(raw, 0)]
    else raw[2..]
  }

  /** The number of items read from `raw[offset:end]`. */
  function ItemsWithin(raw: bytes, offset: nat, end: nat): nat
    requires offset <= end <= |raw|
  {
    |Items(raw[offset..end])|
  }

  method CountSCTList(raw: bytes) returns (count: nat)
    ensures count == |Items(Window(raw))|
  {
    if |raw| < 2 {
      return 0;
    }
    hide Items, ItemsWithin;
    var total := (raw[0] as int) * 0x100 + raw[1];
    if total > |raw| - 2 {
      total := |raw| - 2;
    }
    count := 0;
    var offset := 2;
    var end := 2 + total;
    assert Window(raw) == raw[offset..end];
    ghost var all := ItemsWithin(raw, offset, end);
    WithinWindow(raw, end);
    hide Window;
    while offset + 2 <= end
      invariant 2 <= offset <= end <= |raw|
      invariant all == count + ItemsWithin(raw, offset, end)
      decreases end - offset
    {
      NextItem(raw, offset, end);
      var size := (raw[offset] as int) * 0x100 + raw[offset + 1];
      offset := offset + 2;
      if size < 0 || offset + size > end {
        return;
      }
      count := count + 1;
      offset := offset + size;
    }
    NoNextItem(raw, offset, end);
  }

  lemma WithinWindow(raw: bytes, end: nat)
    requires 2 <= end <= |raw| && Window(raw) == raw[2..end]
    ensures ItemsWithin(raw, 2, end) == |Items(Window(raw))|
  {
  }

  lemma NextItem(raw: bytes, offset: nat, end: nat)
    requires offset + 2 <= end <= |raw|
    ensures var next := offset + 2 + U16(raw, offset);
            ItemsWithin(raw, offset, end) == if next > end then 0 else 1 + ItemsWithin(raw, next, end)
  {
  }

  lemma NoNextItem(raw: bytes, offset: nat, end: nat)
    requires offset <= end <= |raw| && end < offset + 2
    ensures ItemsWithin(raw, offset, end) == 0
  {
  }

  lemma {:induction false} ItemsArePrefix(s: bytes)
    ensures ItemsBytes(Items(s)) <= s
    decreases |s|
  {
    if |s| >= 2 && 2 + U16(s, 0) <= |s| {
      var end := 2 + U16(s, 0);
      var item, rest := s[2..end], Items(s[end..]);
      ItemsArePrefix(s[end..]);
      PutU16OfU16(s, 0);
      assert ([item] + rest)[1..] == rest;
      assert s[..end] == PutU16(|item|) + item && s == s[..end] + s[end..];
      PrependToPrefix(s[..end], ItemsBytes(rest), s[end..]);
    }
  }

  lemma PrependToPrefix(head: bytes, a: bytes, b: bytes)
    requires a <= b
    ensures head + a <= head + b
  {
  }

  /** No list of items that starts `s` is longer than the one read. */
  lemma {:induction false} ItemsAreMaximal(s: bytes, items: seq<bytes>)
    requires ValidItems(items) && ItemsBytes(items) <= s
    ensures items <= Items(s)
  {
    if items != [] {
      var head, tail := PutU16(|items[0]|) + items[0], ItemsBytes(items[1..]);
      assert s[..|head + tail|] == head + tail;
      assert s[0] == head[0] && s[1] == head[1] && U16(s, 0) == |items[0]|;
      assert s[2..|head|] == head[2..] == items[0];
      assert s[|head|..][..|tail|] == tail;
      ItemsAreMaximal(s[|head|..], items[1..]);
      assert items == [items[0]] + items[1..];
    }
  }

  /** On any bytes, the count is the length of the longest item list that starts the window. */
  lemma CountIsLongestList(raw: bytes, items: seq<bytes>)
    requires ValidItems(items)
    ensures ItemsBytes(Items(Window(raw))) <= Window(raw)
    ensures ItemsBytes(items) <= Window(raw) <==> items <= Items(Window(raw))
  {
    ItemsArePrefix(Window(raw));
    if ItemsBytes(items) <= Window(raw) {
      ItemsAreMaximal(Window(raw), items);
    }
    if items <= Items(Window(raw)) {
      ItemsBytesMonotone(items, Items(Window(raw)));
    }
  }

  lemma {:induction false} ItemsBytesMonotone(a: seq<bytes>, b: seq<bytes>)
    requires ValidItems(b) && a <= b
    ensures ValidItems(a) && ItemsBytes(a) <= ItemsBytes(b)
  {
    if a != [] {
      ItemsBytesMonotone(a[1..], b[1..]);
      assert a[0] == b[0];
    }
  }

  /** A serialized list of k items counts k, whatever follows it. */
  lemma SerializedListCounts(items: seq<bytes>, trailing: bytes)
    requires ValidItems(items) && |ItemsBytes(items)| < 0x1_0000
    ensures Items(Window(SCTList(items) + trailing)) == items
  {
    var raw := SCTList(items) + trailing;
    assert U16(raw, 0) == |ItemsBytes(items)|;
    assert Window(raw) == ItemsBytes(items);
    ItemsAreMaximal(ItemsBytes(items), items);
    ItemsArePrefix(ItemsBytes(items));
    SameSizePrefix(items, Items(ItemsBytes(items)));
  }

  lemma {:induction false} SameSizePrefix(a: seq<bytes>, b: seq<bytes>)
    requires ValidItems(b) && a <= b && |ItemsBytes(a)| >= |ItemsBytes(b)|
    ensures a == b
  {
    if a != [] {
      SameSizePrefix(a[1..], b[1..]);
      assert a[0] == b[0] && a == [a[0]] + a[1..] && b == [b[0]] + b[1..];
    }
  }

  /** Cutting the input short never raises the count: the items read are a prefix of the others. */
  lemma TruncationLowersCount(raw: bytes, cut: nat)
    requires cut <= |raw|
    ensures Items(Window(raw[..cut])) <= Items(Window(raw))
  {
    var short := Window(raw[..cut]);
    if cut >= 2 {
      assert U16(raw[..cut], 0) == U16(raw, 0);
      assert short <= Window(raw);
    }
    ItemsArePrefix(short);
    ItemsAreMaximal(Window(raw), Items(short));
  }

  function TotalSize(items: seq<bytes>): nat {
    if items == [] then 0 else |items[0]| + TotalSize(items[1..])
  }

  /** Two bytes per counted item and their sizes fit in what was declared and present. */
  lemma CountFitsWindow(raw: bytes)
    requires |raw| >= 2
    ensures var items := Items(Window(raw));
            && 2 * |items| + TotalSize(items) <= |Window(raw)|
            && |Window(raw)| <= U16(raw, 0)
            && |Window(raw)| <= |raw| - 2
  {
    ItemsArePrefix(Window(raw));
    ItemsSize(Items(Window(raw)));
  }

  lemma {:induction false} ItemsSize(items: seq<bytes>)
    requires ValidItems(items)
    ensures |ItemsBytes(items)| == 2 * |items| + TotalSize(items)
  {
    if items != [] { ItemsSize(items[1..]); }
  }

  // ----- Colon-separated hexadecimal -----

  function HexDigit(d: int): (c: char)
    requires 0 <= d < 16
    ensures c != ':'
  {
    if d < 10 then ('0' as int + d) as char else ('A' as int + (d - 10)) as char
  }

  function HexValue(c: char): (d: int)
    ensures 0 <= d < 16
  {
    if '0' <= c <= '9' then c as int - '0' as int
    else if 'A' <= c <= 'F' then c as int - 'A' as int + 10
    else 0
  }

  /** `strings.ToUpper(hex.EncodeToString(raw))` */
  function HexUpper(raw: bytes): (s: string)
    ensures |s| == 2 * |raw|
  {
    if raw == [] then "" else Pair(raw[0]) + HexUpper(raw[1..])
  }

  function Pair(b: byte): string {
    [HexDigit(b / 16), HexDigit(b % 16)]
  }

  /** Each byte of `raw` as two upper-case digits, with single colons between them. */
  function ColonHexText(raw: bytes): string {
    if |raw| == 0 then ""
    else if |raw| == 1 then Pair(raw[0])
    else Pair(raw[0]) + ":" + ColonHexText(raw[1..])
  }

  method ColonHex(raw: bytes) returns (text: string)
    ensures text == ColonHexText(raw)
  {
    if |raw| == 0 {
      return "";
    }
    var hexed := HexUpper(raw);
    var parts: seq<string> := [];
    var i := 0;
    while i < |hexed|
      invariant 0 <= i <= |hexed| && i == 2 * |parts|
      invariant hexed[i..] == HexUpper(raw[|parts|..])
      invariant forall k | 0 <= k < |parts| :: parts[k] == Pair(raw[k])
    {
      ghost var left := raw[|parts|..];
      assert hexed[i..][..2] == Pair(left[0]) && hexed[i..][2..] == HexUpper(left[1..]);
      parts := parts + [hexed[i..i + 2]];
      i := i + 2;
      assert left[1..] == raw[|parts|..];
    }
    JoinOfPairs(raw, parts);
    return Join(parts, ":");
  }

  lemma {:induction false} JoinOfPairs(raw: bytes, parts: seq<string>)
    requires |parts| == |raw|
    requires forall k | 0 <= k < |parts| :: parts[k] == Pair(raw[k])
    ensures Join(parts, ":") == ColonHexText(raw)
  {
    if |raw| > 1 { JoinOfPairs(raw[1..], parts[1..]); }
  }

  lemma {:induction false} ColonHexLength(raw: bytes)
    requires raw != []
    ensures |ColonHexText(raw)| == 3 * |raw| - 1
  {
    if |raw| > 1 { ColonHexLength(raw[1..]); }
  }

  function DropColons(text: string): string {
    if text == "" then ""
    else if text[0] == ':' then DropColons(text[1..])
    else [text[0]] + DropColons(text[1..])
  }

  function HexDecode(text: string): bytes {
    if |text| < 2 then [] else [HexValue(text[0]) * 16 + HexValue(text[1])] + HexDecode(text[2..])
  }

  /** Dropping the colons and decoding the digits gives the bytes back. */
  lemma {:induction false} ColonHexRoundTrip(raw: bytes)
    ensures HexDecode(DropColons(ColonHexText(raw))) == raw
  {
    if raw != [] {
      var pair := Pair(raw[0]);
      DropColonsOfDigits(pair, if |raw| == 1 then "" else ":" + ColonHexText(raw[1..]));
      var rest := DropColons(ColonHexText(raw[1..]));
      assert (":" + ColonHexText(raw[1..]))[1..] == ColonHexText(raw[1..]);
      assert pair + ":" + ColonHexText(raw[1..]) == pair + (":" + ColonHexText(raw[1..])) && pair + "" == pair;
      assert DropColons(ColonHexText(raw)) == pair + rest;
      ColonHexRoundTrip(raw[1..]);
      assert (pair + rest)[2..] == rest;
      PairValue(raw[0]);
    }
  }

  lemma PairValue(b: byte)
    ensures HexValue(HexDigit(b / 16)) * 16 + HexValue(HexDigit(b % 16)) == b
  {
  }

  lemma {:induction false} DropColonsOfDigits(digits: string, rest: string)
    requires ':' !in digits
    ensures DropColons(digits + rest) == digits + DropColons(rest)
  {
    if digits == "" {
      assert digits + rest == rest;
    } else {
      assert (digits + rest)[1..] == digits[1..] + rest;
      DropColonsOfDigits(digits[1..], rest);
    }
  }

  /** Different byte strings never read the same. */
  lemma ColonHexIsInjective(a: bytes, b: bytes)
    ensures ColonHexText(a) == ColonHexText(b) ==> a == b
  {
    ColonHexRoundTrip(a);
    ColonHexRoundTrip(b);
  }

  /** Two digits of "0123456789ABCDEF" for each byte, the higher first, and colons between. */
  lemma {:induction false} ColonHexDigits(raw: bytes, i: nat)
    requires i < |raw|
    ensures var text, digits := ColonHexText(raw), "0123456789ABCDEF";
            && |text| == 3 * |raw| - 1
            && text[3 * i] == digits[raw[i] / 16] && text[3 * i + 1] == digits[raw[i] % 16]
            && (i + 1 < |raw| ==> text[3 * i + 2] == ':')
  {
    ColonHexLength(raw);
    hide HexDigit;
    if i > 0 {
      ColonHexDigits(raw[1..], i - 1);
    } else {
      DigitAt(raw[0] / 16);
      DigitAt(raw[0] % 16);
    }
  }

  lemma DigitAt(d: int)
    requires 0 <= d < 16
    ensures HexDigit(d) == "0123456789ABCDEF"[d]
  {
  }
}
