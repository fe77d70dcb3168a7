/** Hash values: their text form and their order as map keys. */
module HashBuf {
  import opened Framing

  /** The bitwise operations on bytes, from the lowest bit up. */
  function BitXor(a: nat, b: nat): nat
    decreases a + b
  {
    if a == 0 && b == 0 then 0
    else (if a % 2 != b % 2 then 1 else 0) + 2 * BitXor(a / 2, b / 2)
  }

  function BitOr(a: nat, b: nat): nat
    decreases a + b
  {
    if a == 0 && b == 0 then 0
    else (if a % 2 == 1 || b % 2 == 1 then 1 else 0) + 2 * BitOr(a / 2, b / 2)
  }

  lemma {:induction false} XorZero(a: nat, b: nat)
    ensures BitXor(a, b) == 0 <==> a == b
    decreases a + b
  {
    if a != 0 || b != 0 {
      XorZero(a / 2, b / 2);
      assert a == 2 * (a / 2) + a % 2 && b == 2 * (b / 2) + b % 2;
    }
  }

  lemma {:induction false} OrZero(a: nat, b: nat)
    ensures BitOr(a, b) == 0 <==> a == 0 && b == 0
    decreases a + b
  {
    if a != 0 || b != 0 {
      OrZero(a / 2, b / 2);
      assert a == 2 * (a / 2) + a % 2 && b == 2 * (b / 2) + b % 2;
    }
  }

  // ---------------------------------------------------------------------------------------------
  // Text.

  /** The value of a hex digit, -1 for anything else. */
  function FromHex(ch: char): (d: int)
    ensures d == -1 || 0 <= d < 16
  {
    if '0' <= ch <= '9' then ch as int - '0' as int
    else if 'a' <= ch <= 'f' then ch as int - 'a' as int + 10
    else if 'A' <= ch <= 'F' then ch as int - 'A' as int + 10
    else -1
  }

  /** The lower-case digit of a value. */
  function HexDigit(d: int): char
    requires 0 <= d < 16
  {
    if d < 10 then ('0' as int + d) as char else ('a' as int + d - 10) as char
  }

  function Lower(ch: char): char {
    if 'A' <= ch <= 'F' then (ch as int - 'A' as int + 'a' as int) as char else ch
  }

  function LowerCase(s: string): (r: string)
    ensures |r| == |s| && forall i :: 0 <= i < |s| ==> r[i] == Lower(s[i])
  {
    seq(|s|, i requires 0 <= i < |s| => Lower(s[i]))
  }

  /** Two digits a byte. */
  function Hex(data: seq<byte>): (s: string)
    ensures |s| == 2 * |data|
  {
    if data == [] then "" else [HexDigit(data[0] as int / 16), HexDigit(data[0] as int % 16)] + Hex(data[1..])
  }

  /** The bytes of the pairs up to the first that is not one of hex digits. */
  function HexPrefix(s: string): (r: seq<byte>)
    ensures 2 * |r| <= |s|
  {
    if |s| < 2 || FromHex(s[0]) == -1 || FromHex(s[1]) == -1 then []
    else [(16 * FromHex(s[0]) + FromHex(s[1])) as byte] + HexPrefix(s[2..])
  }

  /** The same of what is left of a text. */
  lemma HexPrefixAt(text: string, t: nat)
    requires t + 1 < |text|
    ensures var a, b := FromHex(text[t]), FromHex(text[t + 1]);
            HexPrefix(text[t..]) == if a == -1 || b == -1 then [] else [(16 * a + b) as byte] + HexPrefix(text[t + 2..])
  {
    var s := text[t..];
    assert s[0] == text[t] && s[1] == text[t + 1] && s[2..] == text[t + 2..];
  }

  lemma OneMoreByte(parsed: seq<byte>, b: byte, rest: seq<byte>)
    ensures parsed + ([b] + rest) == (parsed + [b]) + rest
  {
  }

  lemma NothingToParse()
    ensures HexPrefix("") == []
  {
  }

  predicate AllHex(s: string) {
    forall i :: 0 <= i < |s| ==> FromHex(s[i]) != -1
  }

  lemma DigitRoundTrip(d: int, ch: char)
    ensures 0 <= d < 16 ==> FromHex(HexDigit(d)) == d
    ensures FromHex(ch) != -1 ==> 0 <= FromHex(ch) < 16 && HexDigit(FromHex(ch)) == Lower(ch)
  {
  }

  /** Parsing gives back what was printed. */
  lemma {:induction false} ParsePrinted(data: seq<byte>)
    ensures HexPrefix(Hex(data)) == data
  {
    if data != [] {
      var s := Hex(data);
      assert s[2..] == Hex(data[1..]);
      ParsePrinted(data[1..]);
      DigitRoundTrip(data[0] as int / 16, s[0]);
      DigitRoundTrip(data[0] as int % 16, s[1]);
      var x := data[0] as int;
      assert 16 * (x / 16) + x % 16 == x;
    }
  }

  /** The text form: the i-th byte is two lower-case digits, the upper half first. */
  lemma {:induction false} PrintedDigits(data: seq<byte>, i: nat)
    requires i < |data|
    ensures Hex(data)[2 * i] == "0123456789abcdef"[data[i] as int / 16]
    ensures Hex(data)[2 * i + 1] == "0123456789abcdef"[data[i] as int % 16]
  {
    if i > 0 {
      PrintedDigits(data[1..], i - 1);
    }
  }

  /** What is parsed of any text: the bytes of its pairs of digits, the upper half first, up to the first pair that is not
      one of digits. */
  lemma {:induction false} ParsedBytes(s: string, i: nat)
    requires i <= |HexPrefix(s)|
    ensures var r := HexPrefix(s);
            if i < |r| then FromHex(s[2 * i]) != -1 && FromHex(s[2 * i + 1]) != -1 && r[i] as int == 16 * FromHex(s[2 * i]) + FromHex(s[2 * i + 1])
            else |s| < 2 * i + 2 || FromHex(s[2 * i]) == -1 || FromHex(s[2 * i + 1]) == -1
  {
    hide FromHex;
    if i > 0 {
      ParsedBytes(s[2..], i - 1);
      assert HexPrefix(s)[1..] == HexPrefix(s[2..]);
    }
  }

  /** What parses is exactly the texts of hex digits, an even number of them. */
  lemma {:induction false} ParsesHexTexts(s: string)
    ensures 2 * |HexPrefix(s)| == |s| <==> |s| % 2 == 0 && AllHex(s)
  {
    if |s| >= 2 {
      var rest := s[2..];
      ParsesHexTexts(rest);
      assert AllHex(s) <==> FromHex(s[0]) != -1 && FromHex(s[1]) != -1 && AllHex(rest) by {
        assert forall i :: 2 <= i < |s| ==> s[i] == rest[i - 2];
      }
      hide FromHex;
    }
  }

  /** Printing after a successful parse gives the text in lower case. */
  lemma {:induction false} PrintParsed(s: string)
    requires 2 * |HexPrefix(s)| == |s|
    ensures Hex(HexPrefix(s)) == LowerCase(s)
  {
    if |s| >= 2 {
      var rest, r := s[2..], HexPrefix(s);
      PrintParsed(rest);
      DigitRoundTrip(0, s[0]);
      DigitRoundTrip(0, s[1]);
      hide FromHex, HexDigit, Lower;
      assert r[0] as int / 16 == FromHex(s[0]) && r[0] as int % 16 == FromHex(s[1]);
      assert r[1..] == HexPrefix(rest);
      assert LowerCase(s) == [Lower(s[0]), Lower(s[1])] + LowerCase(rest);
    }
  }

  // ---------------------------------------------------------------------------------------------
  // Order.

  /** The first difference decides, as it does for memcmp. */
  function MemCmp(a: seq<byte>, b: seq<byte>): int
    requires |a| == |b|
  {
    if a == [] then 0
    else if a[0] != b[0] then (if a[0] < b[0] then -1 else 1)
    else MemCmp(a[1..], b[1..])
  }

  predicate Less(a: seq<byte>, b: seq<byte>) {
    if |a| != |b| then |a| < |b| else MemCmp(a, b) < 0
  }

  lemma {:induction false} MemCmpOpposite(a: seq<byte>, b: seq<byte>)
    requires |a| == |b|
    ensures MemCmp(a, b) == -MemCmp(b, a) && (MemCmp(a, b) == 0 <==> a == b)
  {
    if a != [] {
      assert a == [a[0]] + a[1..] && b == [b[0]] + b[1..];
      MemCmpOpposite(a[1..], b[1..]);
    }
  }

  lemma {:induction false} MemCmpTransitive(a: seq<byte>, b: seq<byte>, c: seq<byte>)
    requires |a| == |b| == |c| && MemCmp(a, b) < 0 && MemCmp(b, c) < 0
    ensures MemCmp(a, c) < 0
  {
    if a[0] == b[0] == c[0] {
      MemCmpTransitive(a[1..], b[1..], c[1..]);
    }
  }

  /** The order of the map keys is strict and total, and two hashes that are not ordered either way are
      the equal ones. */
  lemma StrictTotalOrder(a: seq<byte>, b: seq<byte>, c: seq<byte>)
    ensures !Less(a, a)
    ensures Less(a, b) && Less(b, c) ==> Less(a, c)
    ensures !(Less(a, b) && Less(b, a))
    ensures !Less(a, b) && !Less(b, a) <==> a == b
  {
    MemCmpOpposite(a, a);
    if |a| == |b| {
      MemCmpOpposite(a, b);
      if |b| == |c| && Less(a, b) && Less(b, c) {
        MemCmpTransitive(a, b, c);
      }
    }
  }

  /** Of two hashes of the same size the one with the smaller byte at the first difference comes first. */
  lemma {:induction false} FirstDifferenceDecides(a: seq<byte>, b: seq<byte>)
    requires |a| == |b|
    ensures Less(a, b) <==> exists i :: 0 <= i < |a| && a[..i] == b[..i] && a[i] < b[i]
  {
    if a != [] {
      if a[0] != b[0] {
        assert a[..0] == b[..0];
        forall i | 0 < i < |a|
          ensures a[..i] != b[..i]
        {
          assert a[..i][0] != b[..i][0];
        }
      } else {
        FirstDifferenceDecides(a[1..], b[1..]);
        forall i | 0 <= i < |a| - 1
          ensures a[1..][..i] == b[1..][..i] <==> a[..i + 1] == b[..i + 1]
        {
          assert a[..i + 1] == [a[0]] + a[1..][..i] && b[..i + 1] == [b[0]] + b[1..][..i];
        }
        if i :| 0 <= i < |a| - 1 && a[1..][..i] == b[1..][..i] && a[1..][i] < b[1..][i] {
          assert a[..i + 1] == b[..i + 1] && a[i + 1] < b[i + 1];
        }
        if i :| 0 <= i < |a| && a[..i] == b[..i] && a[i] < b[i] {
          assert a[1..][..i - 1] == b[1..][..i - 1] && a[1..][i - 1] < b[1..][i - 1];
        }
      }
    }
  }

  class HashBuf {
    const data: array<byte>

    constructor (size: nat)
      ensures fresh(data) && data.Length == size && forall i :: 0 <= i < size ==> data[i] == 0
    {
      data := new byte[size](_ => 0);
    }

    method ToString() returns (retValue: string)
      ensures retValue == Hex(data[..])
    {
      retValue := "";
      for k := 0 to data.Length
        invariant retValue == Hex(data[..k])
      {
        HexAppend(data[..k], data[k]);
        assert data[..k + 1] == data[..k] + [data[k]];
        retValue := retValue + [HexDigit(data[k] as int / 16), HexDigit(data[k] as int % 16)];
      }
      assert data[..data.Length] == data[..];
    }

    /** Two digits, if they are hex digits. */
    static method ParsePair(text: string, t: nat) returns (ok: bool, b: byte)
      requires t + 1 < |text|
      ensures HexPrefix(text[t..]) == if ok then [b] + HexPrefix(text[t + 2..]) else []
    {
      HexPrefixAt(text, t);
      hide HexPrefix, FromHex;
      ok, b := false, 0;
      var part1 := FromHex(text[t]);
      if part1 == -1 {
        return;
      }
      var part2 := FromHex(text[t + 1]);
      if part2 == -1 {
        return;
      }
      return true, (part1 * 16 + part2) as byte;
    }

    /** The loop of the parser: how far it came, and what it has written. */
    method ParseBytes(text: string) returns (i: nat)
      requires |text| == 2 * data.Length
      modifies data
      ensures i <= data.Length && data[..i] == HexPrefix(text) && data[i..] == old(data[i..])
    {
      hide HexPrefix, FromHex;
      ghost var was, parsed := data[..], [];
      NothingToParse();
      i := 0;
      var t := 0;
      while i < data.Length
        invariant i <= data.Length && t == 2 * i && |parsed| == i
        invariant HexPrefix(text) == parsed + HexPrefix(text[t..])
        invariant forall j :: 0 <= j < i ==> data[j] == parsed[j]
        invariant forall j :: i <= j < data.Length ==> data[j] == was[j]
      {
        var ok, b := ParsePair(text, t);
        if !ok {
          break;
        }
        data[i] := b;
        OneMoreByte(parsed, b, HexPrefix(text[t + 2..]));
        parsed := parsed + [b];
        t := t + 2;
        i := i + 1;
      }
      if i == data.Length {
        assert text[t..] == "";
      }
      assert data[..i] == parsed == HexPrefix(text);
    }

    /** Parsing writes byte by byte, so a text of the right length that is bad somewhere has overwritten
        the bytes before that place. */
    method FromString(text: string) returns (retVal: bool)
      modifies data
      ensures |text| != 2 * data.Length ==> !retVal && data[..] == old(data[..])
      ensures |text| == 2 * data.Length ==>
                var parsed := HexPrefix(text);
                (retVal <==> |parsed| == data.Length) && data[..] == parsed + old(data[|parsed|..])
    {
      retVal := false;
      if |text| == 2 * data.Length {
        hide HexPrefix, FromHex;
        var i := ParseBytes(text);
        retVal := i == data.Length;
        assert data[..] == data[..i] + data[i..];
      }
    }

    method IsZero() returns (r: bool)
      ensures r <==> forall i :: 0 <= i < data.Length ==> data[i] == 0
    {
      var i := 0;
      while i < data.Length
        invariant 0 <= i <= data.Length && forall j :: 0 <= j < i ==> data[j] == 0
      {
        if data[i] != 0 {
          return false;
        }
        i := i + 1;
      }
      r := true;
    }

    /** The comparison that looks at every byte: it finds the hashes equal if and only if they are. */
    method Equals(other: HashBuf) returns (r: bool)
      ensures r <==> data[..] == other.data[..]
    {
      if data.Length != other.data.Length {
        return false;
      }
      var result := 0;
      for i := 0 to data.Length
        invariant result >= 0
        invariant result == 0 <==> data[..i] == other.data[..i]
      {
        XorZero(data[i] as int, other.data[i] as int);
        OrZero(result, BitXor(data[i] as int, other.data[i] as int));
        result := BitOr(result, BitXor(data[i] as int, other.data[i] as int));
        assert data[..i + 1] == data[..i] + [data[i]] && other.data[..i + 1] == other.data[..i] + [other.data[i]];
      }
      r := result == 0;
      assert data[..data.Length] == data[..] && other.data[..data.Length] == other.data[..];
    }
  }

  lemma {:induction false} HexAppend(data: seq<byte>, b: byte)
    ensures Hex(data + [b]) == Hex(data) + [HexDigit(b as int / 16), HexDigit(b as int % 16)]
  {
    if data == [] {
      assert data + [b] == [b] && Hex([b][1..]) == "";
    } else {
      assert (data + [b])[1..] == data[1..] + [b];
      HexAppend(data[1..], b);
    }
  }
}
