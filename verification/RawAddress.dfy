/** The address parser RawAddress::FromString and the two printers of a six-byte address:
    RawAddress::ToString (lower case) and BtAddrString (upper case). */
module RawAddress {
  import opened Optional

  type Address = a: seq<nat> | |a| == 6 && forall i :: 0 <= i < 6 ==> a[i] < 256
    witness [0, 0, 0, 0, 0, 0]

  // ----- Printing -----

  function HexDigit(d: nat, upper: bool): (c: char)
    requires d < 16
  {
    if d < 10 then '0' + d as char else if upper then 'A' + (d - 10) as char else 'a' + (d - 10) as char
  }

  function PrintByte(b: nat, upper: bool): (s: string)
    requires b < 256
  {
    [HexDigit(b / 16, upper), HexDigit(b % 16, upper)]
  }

  /** The format "%02x:%02x:%02x:%02x:%02x:%02x", or its upper-case form. */
  function Print(a: Address, upper: bool): (s: string) {
    PrintByte(a[0], upper) + ":" + PrintByte(a[1], upper) + ":" + PrintByte(a[2], upper) + ":" +
    PrintByte(a[3], upper) + ":" + PrintByte(a[4], upper) + ":" + PrintByte(a[5], upper)
  }

  // ----- Splitting and trimming, as base::SplitString does -----

  function FirstColon(s: string): (i: nat)
    ensures i <= |s| && (i < |s| ==> s[i] == ':') && forall j :: 0 <= j < i ==> s[j] != ':'
  {
    if s == "" || s[0] == ':' then 0 else 1 + FirstColon(s[1..])
  }

  /** The pieces between colons, empty pieces included. */
  function Split(s: string): (tokens: seq<string>)
    ensures |tokens| > 0
  {
    var i := FirstColon(s);
    if i == |s| then [s] else [s[..i]] + Split(s[i + 1..])
  }

  predicate IsSpace(c: char) {
    c == ' ' || c == '\t' || c == '\n' || c == '\r' || c == '\U{000B}' || c == '\U{000C}'
  }

  function TrimLeft(s: string): (r: string)
    ensures |r| <= |s| && (|r| == |s| ==> r == s)
  {
    if s != "" && IsSpace(s[0]) then TrimLeft(s[1..]) else s
  }

  function TrimRight(s: string): (r: string)
    ensures |r| <= |s| && (|r| == |s| ==> r == s)
  {
    if s != "" && IsSpace(s[|s| - 1]) then TrimRight(s[..|s| - 1]) else s
  }

  function Trim(s: string): (r: string) {
    TrimRight(TrimLeft(s))
  }

  // ----- strtol(token, &end, 16) on a token of at most two characters -----

  function HexValue(c: char): (v: int)
    ensures -1 <= v < 16
  {
    if '0' <= c <= '9' then (c - '0') as int
    else if 'a' <= c <= 'f' then (c - 'a') as int + 10
    else if 'A' <= c <= 'F' then (c - 'A') as int + 10
    else -1
  }

  predicate IsHex(c: char) {
    HexValue(c) >= 0
  }

  /** The digits and their values, as a table. */
  lemma HexTable(c: char, v: nat)
    requires v < 16
    ensures HexValue(c) == v <==> c == "0123456789abcdef"[v] || c == "0123456789ABCDEF"[v]
  {
  }

  /** The characters before the first NUL: what c_str() shows to strtol. */
  function CStr(s: string): (r: string) {
    if s == "" || s[0] == '\0' then "" else [s[0]] + CStr(s[1..])
  }

  function LeadingSpaces(s: string): (n: nat)
    ensures n <= |s|
  {
    if s != "" && IsSpace(s[0]) then 1 + LeadingSpaces(s[1..]) else 0
  }

  function LeadingHex(s: string): (n: nat)
    ensures n <= |s| && forall i :: 0 <= i < n ==> IsHex(s[i])
  {
    if s != "" && IsHex(s[0]) then 1 + LeadingHex(s[1..]) else 0
  }

  function HexNumber(s: string): (v: nat)
    requires forall i :: 0 <= i < |s| ==> IsHex(s[i])
  {
    if s == "" then 0 else assert IsHex(s[|s| - 1]); 16 * HexNumber(s[..|s| - 1]) + HexValue(s[|s| - 1])
  }

  /** The parsed value and the number of characters consumed (0 if there is no number). */
  function Strtol16(s: string): (r: (int, nat))
    ensures r.1 <= |s|
  {
    var space := LeadingSpaces(s);
    var start := if space < |s| && (s[space] == '+' || s[space] == '-') then space + 1 else space;
    var n := LeadingHex(s[start..]);
    if n == 0 then (0, 0)
    else
      var digits := s[start..][..n];
      assert forall i :: 0 <= i < n ==> digits[i] == s[start..][i];
      var v: int := HexNumber(digits);
      (if s[space] == '-' then -v else v, start + n)
  }

  /** The byte stored for a token, or None when strtol stops before the end. */
  function TokenByte(token: string): (b: Option<nat>)
    ensures b.Some? ==> b.value < 256
  {
    var s := CStr(token);
    var (value, consumed) := Strtol16(s);
    if consumed == |s| then Some(value % 256) else None
  }

  ghost predicate Accepted(tokens: seq<string>) {
    |tokens| == 6 && forall i :: 0 <= i < 6 ==> |tokens[i]| == 2 && TokenByte(tokens[i]).Some?
  }

  ghost function Trimmed(from: string): seq<string> {
    var raw := Split(from);
    seq(|raw|, i requires 0 <= i < |raw| => Trim(raw[i]))
  }

  /** What FromString stores for a string, None when it returns false. */
  ghost function Parse(from: string): (r: Option<Address>) {
    var tokens := Trimmed(from);
    if |from| == 17 && Accepted(tokens) then
      Some(seq(6, i requires 0 <= i < 6 => TokenByte(tokens[i]).value))
    else None
  }

  /** RawAddress::FromString: `to` is the caller's address object before and after. */
  method FromString(from: string, to: Address) returns (ok: bool, result: Address)
    ensures ok == Parse(from).Some?
    ensures result == if ok then Parse(from).value else to
  {
    result := to;
    if |from| != 17 {
      return false, to;
    }
    var raw := Split(from);
    var byteTokens := seq(|raw|, i requires 0 <= i < |raw| => Trim(raw[i]));
    assert byteTokens == Trimmed(from);
    if |byteTokens| != 6 {
      return false, to;
    }
    var bytes: seq<nat> := [];
    for i := 0 to 6
      invariant |bytes| == i
      invariant forall j :: 0 <= j < i ==>
        |byteTokens[j]| == 2 && TokenByte(byteTokens[j]).Some? && bytes[j] == TokenByte(byteTokens[j]).value
    {
      var token := byteTokens[i];
      if |token| != 2 {
        return false, to;
      }
      var b := TokenByte(token);
      if b.None? {
        return false, to;
      }
      bytes := bytes + [b.value];
    }
    assert bytes == Parse(from).value;
    return true, bytes;
  }

  // ----- Splitting and joining -----

  ghost function Join(tokens: seq<string>): string
    requires |tokens| > 0
  {
    if |tokens| == 1 then tokens[0] else tokens[0] + ":" + Join(tokens[1..])
  }

  ghost predicate NoColon(s: string) {
    forall i :: 0 <= i < |s| ==> s[i] != ':'
  }

  lemma {:induction false} JoinSplit(s: string)
    ensures Join(Split(s)) == s
    decreases |s|
  {
    var i := FirstColon(s);
    if i < |s| {
      JoinSplit(s[i + 1..]);
      JoinCons(s[..i], Split(s[i + 1..]));
      AroundColon(s, i);
    }
  }

  lemma AroundColon(s: string, i: nat)
    requires i < |s| && s[i] == ':'
    ensures s[..i] + ":" + s[i + 1..] == s
  {
    assert s == s[..i] + s[i..] && s[i..] == ":" + s[i + 1..];
  }

  lemma JoinCons(t: string, tokens: seq<string>)
    requires |tokens| > 0
    ensures Join([t] + tokens) == t + ":" + Join(tokens)
  {
    assert ([t] + tokens)[1..] == tokens;
  }

  lemma {:induction false} SplitNoColon(s: string, k: nat)
    requires k < |Split(s)|
    ensures NoColon(Split(s)[k])
    decreases |s|
  {
    var i := FirstColon(s);
    if i < |s| && k > 0 {
      SplitNoColon(s[i + 1..], k - 1);
    }
  }

  lemma FirstColonOf(t: string, rest: string)
    requires NoColon(t) && (rest == "" || rest[0] == ':')
    ensures FirstColon(t + rest) == |t|
  {
    if rest != "" {
      assert (t + rest)[|t|] == ':';
    }
  }

  lemma SplitCons(t: string, rest: string)
    requires NoColon(t)
    ensures Split(t + ":" + rest) == [t] + Split(rest)
  {
    var s := t + ":" + rest;
    FirstColonOf(t, ":" + rest);
    assert s == t + (":" + rest);
    assert s[|t| + 1..] == rest && s[..|t|] == t;
  }

  lemma {:induction false} SplitJoin(tokens: seq<string>)
    requires |tokens| > 0 && forall i :: 0 <= i < |tokens| ==> NoColon(tokens[i])
    ensures Split(Join(tokens)) == tokens
  {
    if |tokens| == 1 {
      FirstColonOf(tokens[0], "");
      assert tokens[0] + "" == tokens[0];
    } else {
      SplitJoin(tokens[1..]);
      SplitCons(tokens[0], Join(tokens[1..]));
    }
  }

  ghost function TotalLength(tokens: seq<string>): nat {
    if tokens == [] then 0 else |tokens[0]| + TotalLength(tokens[1..])
  }

  lemma {:induction false} JoinLength(tokens: seq<string>)
    requires |tokens| > 0
    ensures |Join(tokens)| == TotalLength(tokens) + |tokens| - 1
  {
    if |tokens| > 1 {
      JoinLength(tokens[1..]);
    }
  }

  lemma {:induction false} TightLengths(tokens: seq<string>)
    requires TotalLength(tokens) == 2 * |tokens| && forall i :: 0 <= i < |tokens| ==> |tokens[i]| >= 2
    ensures forall i :: 0 <= i < |tokens| ==> |tokens[i]| == 2
  {
    if tokens != [] {
      LongEnough(tokens[1..]);
      TightLengths(tokens[1..]);
    }
  }

  lemma {:induction false} LongEnough(tokens: seq<string>)
    requires forall i :: 0 <= i < |tokens| ==> |tokens[i]| >= 2
    ensures TotalLength(tokens) >= 2 * |tokens|
  {
    if tokens != [] {
      LongEnough(tokens[1..]);
    }
  }

  // ----- Which strings are accepted -----

  predicate IsSign(c: char) {
    c == '+' || c == '-'
  }

  /** The two-character tokens that pass both the length test and strtol. */
  predicate GoodPair(c: char, d: char) {
    && c != ':' && d != ':' && !IsSpace(c) && !IsSpace(d)
    && ((IsHex(c) && (IsHex(d) || d == '\0')) || (IsSign(c) && IsHex(d)) || c == '\0')
  }

  function PairByte(c: char, d: char): (b: nat)
    requires GoodPair(c, d)
    ensures b < 256
  {
    if c == '\0' then 0
    else if IsSign(c) then (if c == '-' then -HexValue(d) else HexValue(d)) % 256
    else if d == '\0' then HexValue(c)
    else 16 * HexValue(c) + HexValue(d)
  }

  lemma TokenPair(t: string)
    requires |t| == 2 && NoColon(t) && !IsSpace(t[0]) && !IsSpace(t[1])
    ensures TokenByte(t).Some? <==> GoodPair(t[0], t[1])
    ensures TokenByte(t).Some? ==> TokenByte(t).value == PairByte(t[0], t[1])
  {
    var c, d := t[0], t[1];
    var s := CStr(t);
    if c == '\0' {
      assert s == "";
    } else if d == '\0' {
      assert t[1..] == [d] && CStr([d]) == "";
      assert s == [c];
      SingleNumber(c);
    } else {
      assert t[1..] == [d] && [d][1..] == "";
      assert CStr([d]) == [d] + CStr("");
      assert s == [c, d];
      PairNumber(c, d);
    }
  }

  lemma SingleNumber(c: char)
    requires !IsSpace(c)
    ensures Strtol16([c]) == if IsHex(c) then (HexValue(c), 1) else (0, 0)
  {
    var s := [c];
    if IsHex(c) {
      assert s[0..][..] == s && s[1..] == "";
      assert HexNumber(s[..0]) == 0;
      assert LeadingHex(s[0..]) == 1;
      assert s[0..1] == s;
    } else {
      assert LeadingSpaces(s) == 0;
      assert s[1..] == "";
    }
  }

  lemma PairNumber(c: char, d: char)
    requires !IsSpace(c) && !IsSpace(d)
    ensures Strtol16([c, d]) ==
            if IsHex(c) && IsHex(d) then (16 * HexValue(c) + HexValue(d), 2)
            else if IsHex(c) then (HexValue(c), 1)
            else if IsSign(c) && IsHex(d) then (if c == '-' then -HexValue(d) else HexValue(d), 2)
            else (0, 0)
  {
    var s := [c, d];
    assert LeadingSpaces(s) == 0;
    assert s[0..] == s && s[1..] == [d] && s[2..] == "";
    assert [d][1..] == "";
    assert HexNumber("") == 0;
    if IsHex(c) {
      assert s[0..1] == [c] && [c][..0] == "";
      assert HexNumber([c]) == HexValue(c);
      if IsHex(d) {
        assert LeadingHex([d]) == 1 && LeadingHex(s) == 2;
        assert s[0..2] == s && s[..1] == [c];
        assert HexNumber(s) == 16 * HexValue(c) + HexValue(d);
      } else {
        assert LeadingHex([d]) == 0 && LeadingHex(s) == 1;
      }
    } else if IsSign(c) {
      if IsHex(d) {
        assert LeadingHex([d]) == 1;
        assert s[1..2] == [d] && [d][..0] == "";
        assert HexNumber([d]) == HexValue(d);
      }
    }
  }

  // The two digits of pair i and the separator after it, in a string of 17 characters.

  function Hi(s: string, i: nat): char
    requires |s| == 17 && i < 6
  {
    s[3 * i]
  }

  function Lo(s: string, i: nat): char
    requires |s| == 17 && i < 6
  {
    s[3 * i + 1]
  }

  function Sep(s: string, i: nat): char
    requires |s| == 17 && i < 5
  {
    s[3 * i + 2]
  }

  /** Six two-character tokens between five colons, each accepted by strtol. */
  ghost predicate WellShaped(s: string) {
    && |s| == 17
    && (forall i :: 0 <= i < 5 ==> Sep(s, i) == ':')
    && (forall i :: 0 <= i < 6 ==> GoodPair(Hi(s, i), Lo(s, i)))
  }

  ghost function Pairs(s: string): (tokens: seq<string>)
    requires |s| == 17
  {
    [s[0..2], s[3..5], s[6..8], s[9..11], s[12..14], s[15..17]]
  }

  lemma JoinSix(t: seq<string>)
    requires |t| == 6
    ensures Join(t) == t[0] + ":" + t[1] + ":" + t[2] + ":" + t[3] + ":" + t[4] + ":" + t[5]
  {
    var three, two, one := [t[3], t[4], t[5]], [t[4], t[5]], [t[5]];
    assert t == [t[0]] + ([t[1]] + ([t[2]] + three));
    assert three == [t[3]] + two && two == [t[4]] + one;
    JoinCons(t[4], one);
    JoinCons(t[3], two);
    JoinCons(t[2], three);
    JoinCons(t[1], [t[2]] + three);
    JoinCons(t[0], [t[1]] + ([t[2]] + three));
    LeftToRight(t[0], t[1], t[2], t[3], t[4], t[5]);
  }

  lemma LeftToRight(a: string, b: string, c: string, d: string, e: string, f: string)
    ensures a + ":" + (b + ":" + (c + ":" + (d + ":" + (e + ":" + f))))
         == a + ":" + b + ":" + c + ":" + d + ":" + e + ":" + f
  {
    assert d + ":" + (e + ":" + f) == d + ":" + e + ":" + f;
    assert c + ":" + (d + ":" + e + ":" + f) == c + ":" + d + ":" + e + ":" + f;
    assert b + ":" + (c + ":" + d + ":" + e + ":" + f) == b + ":" + c + ":" + d + ":" + e + ":" + f;
  }

  lemma PairsOfShape(s: string)
    requires |s| == 17 && forall i :: 0 <= i < 5 ==> Sep(s, i) == ':'
    ensures s == Join(Pairs(s))
  {
    assert Sep(s, 0) == Sep(s, 1) == Sep(s, 2) == Sep(s, 3) == Sep(s, 4) == ':';
    JoinSix(Pairs(s));
    assert s == s[0..2] + [s[2]] + s[3..5] + [s[5]] + s[6..8] + [s[8]] + s[9..11] + [s[11]]
                + s[12..14] + [s[14]] + s[15..17];
  }

  lemma TrimOf(t: string)
    requires |t| == 2
    ensures |Trim(t)| == 2 <==> !IsSpace(t[0]) && !IsSpace(t[1])
    ensures |Trim(t)| == 2 ==> Trim(t) == t
    ensures |Trim(t)| <= |t|
  {
  }

  /** In a 17-character string, six trimmed tokens of two characters leave no slack. */
  lemma TokensTight(s: string)
    requires |s| == 17 && |Split(s)| == 6
    requires forall i :: 0 <= i < 6 ==> |Trimmed(s)[i]| == 2
    ensures forall i :: 0 <= i < 6 ==> |Split(s)[i]| == 2
    ensures Split(s) == Pairs(s) && forall i :: 0 <= i < 5 ==> Sep(s, i) == ':'
  {
    var raw := Split(s);
    JoinSplit(s);
    JoinLength(raw);
    forall i | 0 <= i < 6 ensures |raw[i]| >= 2 {
      assert |Trimmed(s)[i]| == |Trim(raw[i])| <= |raw[i]|;
    }
    TightLengths(raw);
    SlicesOfSix(raw);
  }

  lemma SlicesOfSix(t: seq<string>)
    requires |t| == 6 && forall i :: 0 <= i < 6 ==> |t[i]| == 2
    ensures |Join(t)| == 17 && Pairs(Join(t)) == t
    ensures forall i :: 0 <= i < 5 ==> Sep(Join(t), i) == ':'
  {
    JoinSix(t);
    var s := Join(t);
    assert s[0..2] == t[0] && s[3..5] == t[1] && s[6..8] == t[2];
    assert s[9..11] == t[3] && s[12..14] == t[4] && s[15..17] == t[5];
  }

  lemma ShapedTokens(s: string)
    requires WellShaped(s)
    ensures Split(s) == Pairs(s) && Trimmed(s) == Pairs(s) && Accepted(Pairs(s))
  {
    var p := Pairs(s);
    forall i | 0 <= i < 6
      ensures |p[i]| == 2 && p[i][0] == Hi(s, i) && p[i][1] == Lo(s, i)
      ensures NoColon(p[i]) && Trim(p[i]) == p[i] && TokenByte(p[i]).Some?
    {
      PairAt(s, i);
      TrimOf(p[i]);
      TokenPair(p[i]);
    }
    PairsOfShape(s);
    SplitJoin(p);
  }

  lemma PairAt(s: string, i: nat)
    requires |s| == 17 && i < 6
    ensures Pairs(s)[i] == [Hi(s, i), Lo(s, i)]
  {
    if i == 0 {
    } else if i == 1 {
    } else if i == 2 {
    } else if i == 3 {
    } else if i == 4 {
    } else {
    }
  }

  /** FromString accepts a string exactly when it has the shape above, and stores the
      byte of each pair. */
  lemma AcceptsExactly(s: string)
    ensures Parse(s).Some? <==> WellShaped(s)
    ensures WellShaped(s) ==> forall i :: 0 <= i < 6 ==> Parse(s).value[i] == PairByte(Hi(s, i), Lo(s, i))
  {
    if WellShaped(s) {
      ShapedTokens(s);
      forall i | 0 <= i < 6 ensures Parse(s).value[i] == PairByte(Hi(s, i), Lo(s, i)) {
        PairAt(s, i);
        TokenPair(Pairs(s)[i]);
      }
    }
    if Parse(s).Some? {
      TokensTight(s);
      forall i | 0 <= i < 6 ensures GoodPair(Hi(s, i), Lo(s, i)) {
        PairAt(s, i);
        var t := Split(s)[i];
        SplitNoColon(s, i);
        assert Trimmed(s)[i] == Trim(t);
        TrimOf(t);
        TokenPair(t);
      }
    }
  }

  // ----- Round trips -----

  lemma HexOf(d: nat, upper: bool)
    requires d < 16
    ensures HexValue(HexDigit(d, upper)) == d && IsHex(HexDigit(d, upper))
    ensures HexDigit(d, upper) != ':' && !IsSpace(HexDigit(d, upper)) && !IsSign(HexDigit(d, upper))
    ensures HexDigit(d, upper) != '\0'
  {
  }

  lemma PrintAt(a: Address, upper: bool, i: nat)
    requires i < 6
    ensures |Print(a, upper)| == 17
    ensures Hi(Print(a, upper), i) == HexDigit(a[i] / 16, upper)
    ensures Lo(Print(a, upper), i) == HexDigit(a[i] % 16, upper)
    ensures i < 5 ==> Sep(Print(a, upper), i) == ':'
  {
  }

  /** Parsing either printed form gives the address back. */
  lemma ParsePrint(a: Address, upper: bool)
    ensures Parse(Print(a, upper)) == Some(a)
  {
    var s := Print(a, upper);
    forall i | 0 <= i < 6
      ensures GoodPair(Hi(s, i), Lo(s, i)) && PairByte(Hi(s, i), Lo(s, i)) == a[i]
      ensures i < 5 ==> Sep(s, i) == ':'
    {
      PrintAt(a, upper, i);
      HexOf(a[i] / 16, upper);
      HexOf(a[i] % 16, upper);
    }
    AcceptsExactly(s);
    assert Parse(s).value == a;
  }

  /** Both printers are injective, so a map keyed by the printed form is faithful. */
  lemma PrintInjective(a: Address, b: Address, upper: bool)
    requires Print(a, upper) == Print(b, upper)
    ensures a == b
  {
    ParsePrint(a, upper);
    ParsePrint(b, upper);
  }

  /** One address in both printed forms, digit by digit. */
  lemma PrintedUpper(a: Address)
    requires a == [0x01, 0x23, 0x45, 0x67, 0x9A, 0xBF]
    ensures Print(a, true) == ['0', '1', ':', '2', '3', ':', '4', '5', ':', '6', '7', ':', '9', 'A', ':', 'B', 'F']
  {
  }

  lemma PrintedLower(a: Address)
    requires a == [0x01, 0x23, 0x45, 0x67, 0x9A, 0xBF]
    ensures Print(a, false) == ['0', '1', ':', '2', '3', ':', '4', '5', ':', '6', '7', ':', '9', 'a', ':', 'b', 'f']
  {
  }

  function LowerHex(c: char): char {
    if 'A' <= c <= 'F' then c - 'A' + 'a' else c
  }

  ghost predicate SameText(s: string, t: string) {
    |s| == |t| && forall i :: 0 <= i < |s| ==> LowerHex(s[i]) == LowerHex(t[i])
  }

  /** Colons in place and every pair two hexadecimal digits: what an address looks like. */
  ghost predicate HexPairs(s: string) {
    && |s| == 17
    && (forall i :: 0 <= i < 5 ==> Sep(s, i) == ':')
    && (forall i :: 0 <= i < 6 ==> IsHex(Hi(s, i)) && IsHex(Lo(s, i)))
  }

  lemma SameDigits(s: string, t: string)
    requires |s| == |t| == 17
    ensures SameText(s, t) <==>
            && (forall i :: 0 <= i < 6 ==> LowerHex(Hi(s, i)) == LowerHex(Hi(t, i)))
            && (forall i :: 0 <= i < 6 ==> LowerHex(Lo(s, i)) == LowerHex(Lo(t, i)))
            && (forall i :: 0 <= i < 5 ==> LowerHex(Sep(s, i)) == LowerHex(Sep(t, i)))
  {
    if forall i :: 0 <= i < 6 ==> LowerHex(Hi(s, i)) == LowerHex(Hi(t, i)) {
      if forall i :: 0 <= i < 6 ==> LowerHex(Lo(s, i)) == LowerHex(Lo(t, i)) {
        if forall i :: 0 <= i < 5 ==> LowerHex(Sep(s, i)) == LowerHex(Sep(t, i)) {
          forall k | 0 <= k < 17 ensures LowerHex(s[k]) == LowerHex(t[k]) {
            var i := k / 3;
            assert s[k] == if k % 3 == 0 then Hi(s, i) else if k % 3 == 1 then Lo(s, i) else Sep(s, i);
            assert t[k] == if k % 3 == 0 then Hi(t, i) else if k % 3 == 1 then Lo(t, i) else Sep(t, i);
          }
        }
      }
    }
  }

  /** `text` is the lower-case printed form of `a`, digit by digit. */
  ghost predicate Prints(text: string, a: Address) {
    && |text| == 17
    && (forall i :: 0 <= i < 6 ==> Hi(text, i) == HexDigit(a[i] / 16, false))
    && (forall i :: 0 <= i < 6 ==> Lo(text, i) == HexDigit(a[i] % 16, false))
    && (forall i :: 0 <= i < 5 ==> Sep(text, i) == ':')
  }

  lemma PrintPrints(a: Address)
    ensures Prints(Print(a, false), a)
  {
    forall i | 0 <= i < 6
      ensures Hi(Print(a, false), i) == HexDigit(a[i] / 16, false)
      ensures Lo(Print(a, false), i) == HexDigit(a[i] % 16, false)
      ensures i < 5 ==> Sep(Print(a, false), i) == ':'
    {
      PrintAt(a, false, i);
    }
  }

  /** FromString reads a string as the address it spells, up to letter case, exactly when
      every pair is two hexadecimal digits; other accepted strings print back differently. */
  lemma SpellsExactly(s: string)
    ensures (Parse(s).Some? && SameText(s, Print(Parse(s).value, false))) <==> HexPairs(s)
  {
    if HexPairs(s) {
      HexPairsSpell(s);
    }
    if Parse(s).Some? && SameText(s, Print(Parse(s).value, false)) {
      AcceptsExactly(s);
      PrintPrints(Parse(s).value);
      SpellsForth(s, Parse(s).value, Print(Parse(s).value, false));
    }
  }

  lemma HexPairsSpell(s: string)
    requires HexPairs(s)
    ensures Parse(s).Some? && SameText(s, Print(Parse(s).value, false))
  {
    HexPairsShaped(s);
    AcceptsExactly(s);
    var a := Parse(s).value;
    PrintPrints(a);
    SpellsBack(s, a, Print(a, false));
  }

  lemma HexPairsShaped(s: string)
    requires HexPairs(s)
    ensures WellShaped(s)
    ensures forall i :: 0 <= i < 6 ==> PairByte(Hi(s, i), Lo(s, i)) == 16 * HexValue(Hi(s, i)) + HexValue(Lo(s, i))
  {
  }

  lemma SpellsForth(s: string, a: Address, text: string)
    requires Prints(text, a) && SameText(s, text) && WellShaped(s)
    ensures HexPairs(s)
  {
    SameDigits(s, text);
    forall i | 0 <= i < 6 ensures IsHex(Hi(s, i)) && IsHex(Lo(s, i)) {
      DigitForth(Hi(s, i), a[i] / 16);
      DigitForth(Lo(s, i), a[i] % 16);
    }
  }

  lemma SpellsBack(s: string, a: Address, text: string)
    requires HexPairs(s) && Prints(text, a)
    requires forall i :: 0 <= i < 6 ==> a[i] == 16 * HexValue(Hi(s, i)) + HexValue(Lo(s, i))
    ensures SameText(s, text)
  {
    forall i | 0 <= i < 6
      ensures LowerHex(Hi(s, i)) == LowerHex(Hi(text, i)) && LowerHex(Lo(s, i)) == LowerHex(Lo(text, i))
    {
      SplitByte(HexValue(Hi(s, i)), HexValue(Lo(s, i)));
      DigitBack(Hi(s, i));
      DigitBack(Lo(s, i));
    }
    SameDigits(s, text);
  }

  lemma DigitForth(c: char, d: nat)
    requires d < 16 && LowerHex(c) == LowerHex(HexDigit(d, false))
    ensures IsHex(c)
  {
  }

  lemma DigitBack(c: char)
    requires IsHex(c)
    ensures LowerHex(HexDigit(HexValue(c), false)) == LowerHex(c)
  {
  }

  lemma SplitByte(h: nat, l: nat)
    requires h < 16 && l < 16
    ensures (16 * h + l) / 16 == h && (16 * h + l) % 16 == l
  {
  }

  /** A string that is no address, yet is accepted: a minus sign reads as a negative byte. */
  lemma SignedTokenAccepted(s: string)
    requires s == "-1:00:00:00:00:00"
    ensures Parse(s).Some? && Parse(s).value[0] == 255 && !HexPairs(s)
  {
    SignedShaped(s);
    AcceptsExactly(s);
    assert Parse(s).value[0] == PairByte(Hi(s, 0), Lo(s, 0));
  }

  lemma SignedShaped(s: string)
    requires s == "-1:00:00:00:00:00"
    ensures WellShaped(s) && PairByte(Hi(s, 0), Lo(s, 0)) == 255 && !IsHex(Hi(s, 0))
  {
    forall i | 0 <= i < 6
      ensures GoodPair(Hi(s, i), Lo(s, i)) && (i < 5 ==> Sep(s, i) == ':')
    {
      SignedDigits(s, i);
    }
    SignedDigits(s, 0);
  }

  lemma SignedDigits(s: string, i: nat)
    requires s == "-1:00:00:00:00:00" && i < 6
    ensures if i == 0 then Hi(s, i) == '-' && Lo(s, i) == '1' else Hi(s, i) == '0' && Lo(s, i) == '0'
    ensures i < 5 ==> Sep(s, i) == ':'
  {
    if i == 0 {
    } else if i == 1 {
    } else if i == 2 {
    } else if i == 3 {
    } else if i == 4 {
    } else {
    }
  }

  /** No digit of the address is a letter. */
  predicate AllDecimal(a: Address) {
    forall i :: 0 <= i < 6 ==> a[i] / 16 < 10 && a[i] % 16 < 10
  }

  /** The two printed forms of an address agree exactly when it has no letter digit. */
  lemma FormsAgree(a: Address)
    ensures Print(a, false) == Print(a, true) <==> AllDecimal(a)
  {
    if Print(a, false) == Print(a, true) {
      forall i | 0 <= i < 6 ensures a[i] / 16 < 10 && a[i] % 16 < 10 {
        PrintAt(a, false, i);
        PrintAt(a, true, i);
      }
    }
  }
}
