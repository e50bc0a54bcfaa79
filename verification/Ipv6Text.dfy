/** Numerals in any base up to sixteen, and where characters occur. */
module Numerals {
  import opened Common

  const DIGITS: string := "0123456789abcdef"

  /** The numeral of v without leading zeros. */
  function Numeral(v: nat, base: nat): (s: string)
    requires 2 <= base <= 16
    ensures s != []
    decreases v
  {
    if v < base then [DIGITS[v]] else Numeral(v / base, base) + [DIGITS[v % base]]
  }

  function DigitValue(c: char): int {
    if '0' <= c <= '9' then c as int - '0' as int
    else if 'a' <= c <= 'f' then c as int - 'a' as int + 10
    else -1
  }

  /** The value of a numeral; None when empty or when a character is no digit. */
  function ReadNumeral(s: string, base: nat): Option<nat>
    requires 2 <= base <= 16
  {
    if s == [] then None
    else
      var d := DigitValue(s[|s| - 1]);
      if !(0 <= d < base) then None
      else if |s| == 1 then Some(d)
      else
        match ReadNumeral(s[..|s| - 1], base)
        case None => None
        case Some(v) => Some(v * base + d)
  }

  lemma DigitBack(d: nat)
    requires d < 16
    ensures DigitValue(DIGITS[d]) == d && DIGITS[d] != ':' && DIGITS[d] != ']'
  {
  }

  lemma ReadStep(p: string, c: char, base: nat, v: nat)
    requires 2 <= base <= 16 && ReadNumeral(p, base) == Some(v) && 0 <= DigitValue(c) < base
    ensures ReadNumeral(p + [c], base) == Some(v * base + DigitValue(c))
  {
    assert (p + [c])[..|p|] == p;
  }

  /** Reading a numeral gives the number back. */
  lemma {:induction false} NumeralBack(v: nat, base: nat)
    requires 2 <= base <= 16
    ensures ReadNumeral(Numeral(v, base), base) == Some(v)
    decreases v
  {
    if v < base {
      DigitBack(v);
    } else {
      NumeralBack(v / base, base);
      DigitBack(v % base);
      ReadStep(Numeral(v / base, base), DIGITS[v % base], base, v / base);
      DivMod(v, base);
    }
  }

  lemma DivMod(v: nat, base: nat)
    requires base > 0
    ensures v / base * base + v % base == v
  {
  }

  /** Numerals contain neither of the separators. */
  lemma {:induction false} NumeralPlain(v: nat, base: nat)
    requires 2 <= base <= 16
    ensures ':' !in Numeral(v, base) && ']' !in Numeral(v, base)
    decreases v
  {
    if v < base {
      DigitBack(v);
    } else {
      NumeralPlain(v / base, base);
      DigitBack(v % base);
    }
  }

  /** Sixteen bits need at most four hexadecimal digits. */
  lemma ShortHex(v: nat)
    requires v < 65536
    ensures |Numeral(v, 16)| <= 4
  {
    var a := v / 16;
    var b := a / 16;
    var c := b / 16;
    assert |Numeral(c, 16)| == 1;
    assert |Numeral(b, 16)| <= 2;
    assert |Numeral(a, 16)| <= 3;
  }

  /** The first place of c, or the length. */
  function IndexOf(s: string, c: char): (k: nat)
    ensures k <= |s| && c !in s[..k] && (k < |s| ==> s[k] == c)
  {
    if s == [] || s[0] == c then 0 else 1 + IndexOf(s[1..], c)
  }

  lemma IndexAfter(a: string, c: char, b: string)
    requires c !in a
    ensures IndexOf(a, c) == |a| && IndexOf(a + [c] + b, c) == |a|
    ensures (a + [c] + b)[..|a|] == a && (a + [c] + b)[|a| + 1..] == b
  {
    var s := a + [c] + b;
    assert s[|a|] == c;
    assert forall i :: 0 <= i < |a| ==> s[i] in a;
    assert IndexOf(s, c) <= |a|;
  }
}

/** The IPv6 printer with zero compression, and the reading of its text by section 2.2 of RFC 4291. */
module Ipv6Text {
  import opened Common
  import opened Blocks
  import opened Numerals
  import opened Words

  // ---------------------------------------------------------------- reading text

  /** Groups separated by colons, each of one to four hexadecimal digits. */
  function ReadGroups(s: string): Option<seq<nat>>
    decreases |s|
  {
    var k := IndexOf(s, ':');
    var head := ReadNumeral(s[..k], 16);
    if head == None || k > 4 then None
    else if k == |s| then Some([head.value])
    else
      match ReadGroups(s[k + 1..])
      case None => None
      case Some(rest) => Some([head.value] + rest)
  }

  /** A possibly empty list of groups. */
  function ReadSide(s: string): Option<seq<nat>> {
    if s == [] then Some([]) else ReadGroups(s)
  }

  /** The first "::", or the length. */
  function DoubleColon(s: string): (k: nat)
    ensures k <= |s| && (k < |s| ==> k + 1 < |s|)
  {
    if |s| < 2 then |s|
    else if s[0] == s[1] == ':' then 0
    else 1 + DoubleColon(s[1..])
  }

  function Zeros(n: nat): (gs: seq<nat>)
    ensures |gs| == n && forall i :: 0 <= i < n ==> gs[i] == 0
  {
    seq(n, _ => 0)
  }

  /** The text of an address: eight groups, or fewer with one "::" for the missing zero groups, of which there
      is at least one. */
  function Expand(s: string): Option<seq<nat>> {
    var k := DoubleColon(s);
    if k == |s| then
      var gs := ReadGroups(s);
      if gs.Some? && |gs.value| == 8 then gs else None
    else
      var left, right := ReadSide(s[..k]), ReadSide(s[k + 2..]);
      if left.Some? && right.Some? && |left.value| + |right.value| < 8
      then Some(left.value + Zeros(8 - |left.value| - |right.value|) + right.value)
      else None
  }

  // ---------------------------------------------------------------- printing

  /** The groups as hexadecimal numerals. */
  function Texts(gs: seq<nat>): (ts: seq<string>)
    ensures |ts| == |gs| && forall i :: 0 <= i < |gs| ==> ts[i] == Numeral(gs[i], 16)
  {
    seq(|gs|, i requires 0 <= i < |gs| => Numeral(gs[i], 16))
  }

  function Join(ts: seq<string>): string {
    if ts == [] then [] else if |ts| == 1 then ts[0] else ts[0] + ":" + Join(ts[1..])
  }

  /** Where the first run of zeros starts, and where a run of zeros from i on ends. */
  function FirstZero(gs: seq<nat>): (a: nat)
    ensures a <= |gs| && 0 !in gs[..a] && (a < |gs| ==> gs[a] == 0)
  {
    if gs == [] || gs[0] == 0 then 0 else 1 + FirstZero(gs[1..])
  }

  function RunEnd(gs: seq<nat>, i: nat): (b: nat)
    requires i <= |gs|
    ensures i <= b <= |gs| && (forall j :: i <= j < b ==> gs[j] == 0) && (b < |gs| ==> gs[b] != 0)
    decreases |gs| - i
  {
    if i == |gs| || gs[i] != 0 then i else RunEnd(gs, i + 1)
  }

  /** The numerals ts of gs, with "::" for the first run of zeros. */
  function Layout(gs: seq<nat>, ts: seq<string>): string
    requires |gs| == |ts|
  {
    var a := FirstZero(gs);
    if a == |gs| then Join(ts) else Join(ts[..a]) + "::" + Join(ts[RunEnd(gs, a)..])
  }

  /** The text the printer is to produce. */
  function Print(gs: seq<nat>): string {
    Layout(gs, Texts(gs))
  }

  /** Groups of an address: the memory in network order, read as swapped 16-bit words. */
  function Groups(address: seq<byte>): (gs: seq<nat>)
    ensures |gs| == |address| / 2
  {
    if |address| < 2 then [] else [GetWord(address[..2], false, true)] + Groups(address[2..])
  }

  /** Two stored bytes are a number, high byte first. */
  lemma NetworkWord(bs: seq<byte>)
    requires |bs| == 2
    ensures GetWord(bs, false, true) == 256 * (bs[0] as int) + bs[1] as int
  {
    GetWordIsPortable(bs, false, true);
    assert bs == [bs[0], bs[1]];
    assert Reverse(bs) == [bs[1], bs[0]] by {
      assert bs[1..] == [bs[1]] && Reverse([bs[1]]) == [bs[1]];
    }
    assert [bs[1], bs[0]][1..] == [bs[0]] && FromLittleEndian([bs[0]]) == bs[0];
  }

  /** Group i is made of the stored bytes 2i and 2i + 1. */
  lemma {:induction false} GroupsMeaning(a: seq<byte>, i: nat)
    requires 2 * i + 1 < |a|
    ensures Groups(a)[i] == 256 * (a[2 * i] as int) + a[2 * i + 1] as int
  {
    if i == 0 {
      NetworkWord(a[..2]);
    } else {
      GroupsMeaning(a[2..], i - 1);
    }
  }

  /** The first run of zeros, as long as it is, becomes "::"; without zeros all groups are printed. */
  lemma PrintMeaning(gs: seq<nat>, a: nat, b: nat)
    requires a <= b <= |gs| && (forall i :: 0 <= i < a ==> gs[i] != 0) && (forall i :: a <= i < b ==> gs[i] == 0)
    requires if a == b then a == |gs| else b < |gs| ==> gs[b] != 0
    ensures Print(gs) == if a == b then Join(Texts(gs)) else Join(Texts(gs)[..a]) + "::" + Join(Texts(gs)[b..])
  {
    var c := FirstZero(gs);
    forall i | 0 <= i < c ensures gs[i] != 0 {
      assert gs[..c][i] == gs[i];
    }
    var atC, atA := if c < |gs| then gs[c] else 1, if a < |gs| then gs[a] else 1;
    assert c == a;
    if a < b {
      var e := RunEnd(gs, a);
      var atE, atB := if e < |gs| then gs[e] else 1, if b < |gs| then gs[b] else 1;
      assert e == b;
    }
  }

  predicate IsAddress(gs: seq<nat>) {
    |gs| == 8 && forall i :: 0 <= i < 8 ==> gs[i] < 65536
  }

  lemma {:induction false} JoinSnoc(ts: seq<string>, h: string)
    ensures Join(ts + [h]) == if ts == [] then h else Join(ts) + ":" + h
  {
    if |ts| == 1 {
      assert (ts + [h])[1..] == [h];
    } else if |ts| > 1 {
      JoinSnoc(ts[1..], h);
      assert (ts + [h])[1..] == ts[1..] + [h];
    }
  }

  /** Where the loop stands after i groups: nothing compressed yet, inside the first run, or past it. */
  ghost predicate Progress(gs: seq<nat>, ts: seq<string>, i: nat, used: bool, out: string)
    requires i <= |gs| == |ts|
  {
    var a := FirstZero(gs);
    if i <= a then !used && out == Join(ts[..i])
    else
      var b := RunEnd(gs, a);
      if i <= b then !used && out == Join(ts[..a])
      else used && out == Join(ts[..a]) + "::" + Join(ts[b..i])
  }

  lemma NonZeroBefore(gs: seq<nat>, i: nat)
    requires i < FirstZero(gs)
    ensures gs[i] != 0
  {
    assert gs[..FirstZero(gs)][i] == gs[i];
  }

  lemma JoinNext(ts: seq<string>, b: nat, i: nat)
    requires b <= i < |ts|
    ensures Join(ts[b..i + 1]) == (if i > b then Join(ts[b..i]) + ":" else "") + ts[i]
  {
    JoinSnoc(ts[b..i], ts[i]);
    assert ts[b..i + 1] == ts[b..i] + [ts[i]];
  }

  /** One pass of the loop of `IPv6Address::Insert`. */
  method PrintGroup(gs: seq<nat>, ts: seq<string>, i: nat, used: bool, text: string) returns (used': bool, out: string)
    requires i < |gs| == |ts| && Progress(gs, ts, i, used, text)
    ensures Progress(gs, ts, i + 1, used', out)
  {
    used', out := used, text;
    ghost var a := FirstZero(gs);
    ghost var b := RunEnd(gs, a);
    if i < a {
      NonZeroBefore(gs, i);
      if i > 0 {
        NonZeroBefore(gs, i - 1);
      }
      JoinNext(ts, 0, i);
      assert ts[0..i] == ts[..i] && ts[0..i + 1] == ts[..i + 1];
    } else if i >= b {
      JoinNext(ts, b, i);
    }
    if gs[i] == 0 && !used {
      return;
    }
    if i > 0 && gs[i - 1] == 0 && !used {
      out := out + ":";
      used' := true;
    }
    if i > 0 {
      out := out + ":";
    }
    out := out + ts[i];
  }

  /** The loop of `IPv6Address::Insert`; ts are the numerals of the groups. */
  method PrintGroups(gs: seq<nat>, ts: seq<string>) returns (out: string)
    requires |gs| == |ts| == 8
    ensures out == Layout(gs, ts)
  {
    out := "";
    var usedZeros := false;
    var i := 0;
    while i < 8
      invariant 0 <= i <= 8 && Progress(gs, ts, i, usedZeros, out)
    {
      usedZeros, out := PrintGroup(gs, ts, i, usedZeros, out);
      i := i + 1;
    }
    assert ts[..8] == ts && ts[8..] == [] && (forall b :: 0 <= b <= 8 ==> ts[b..8] == ts[b..]);
    if !usedZeros && gs[7] == 0 {
      out := out + "::";
    }
  }

  // ---------------------------------------------------------------- reading what was printed

  /** h is a numeral of the group g. */
  predicate IsHex(h: string, g: nat) {
    ReadNumeral(h, 16) == Some(g) && ':' !in h && ']' !in h && 1 <= |h| <= 4
  }

  predicate AreHex(ts: seq<string>, gs: seq<nat>) {
    |ts| == |gs| && forall i :: 0 <= i < |gs| ==> IsHex(ts[i], gs[i])
  }

  lemma TextsAreHex(gs: seq<nat>)
    requires IsAddress(gs)
    ensures AreHex(Texts(gs), gs)
  {
    forall i | 0 <= i < |gs| ensures IsHex(Texts(gs)[i], gs[i]) {
      NumeralBack(gs[i], 16);
      NumeralPlain(gs[i], 16);
      ShortHex(gs[i]);
    }
  }

  lemma ReadLast(h: string, gs: seq<nat>)
    requires |gs| == 1 && IsHex(h, gs[0])
    ensures ReadGroups(h) == Some(gs)
  {
    IndexAfter(h, ':', []);
    assert h[..|h|] == h && gs == [gs[0]];
  }

  lemma ReadMore(h: string, rest: string, gs: seq<nat>)
    requires |gs| > 1 && IsHex(h, gs[0]) && ReadGroups(rest) == Some(gs[1..])
    ensures ReadGroups(h + ":" + rest) == Some(gs)
  {
    IndexAfter(h, ':', rest);
    assert gs == [gs[0]] + gs[1..];
  }

  lemma {:induction false} JoinBack(ts: seq<string>, gs: seq<nat>)
    requires gs != [] && AreHex(ts, gs)
    ensures ReadGroups(Join(ts)) == Some(gs)
  {
    if |gs| == 1 {
      ReadLast(ts[0], gs);
    } else {
      JoinBack(ts[1..], gs[1..]);
      ReadMore(ts[0], Join(ts[1..]), gs);
    }
  }

  /** No "::" inside, and no colon at either end. */
  predicate Clean(s: string) {
    && (forall j :: 0 <= j < |s| - 1 ==> !(s[j] == ':' && s[j + 1] == ':'))
    && (s != [] ==> s[0] != ':' && s[|s| - 1] != ':')
  }

  lemma CleanConcat(a: string, b: string)
    requires a != [] && b != [] && ':' !in a && Clean(b)
    ensures Clean(a + ":" + b)
  {
  }

  lemma {:induction false} JoinClean(ts: seq<string>, gs: seq<nat>)
    requires AreHex(ts, gs)
    ensures Clean(Join(ts)) && (Join(ts) == [] <==> gs == []) && ']' !in Join(ts)
  {
    if ts != [] {
      assert IsHex(ts[0], gs[0]);
      if |ts| > 1 {
        JoinClean(ts[1..], gs[1..]);
        CleanConcat(ts[0], Join(ts[1..]));
      }
    }
  }

  lemma {:induction false} DoubleColonAbsent(s: string)
    requires forall j :: 0 <= j < |s| - 1 ==> !(s[j] == ':' && s[j + 1] == ':')
    ensures DoubleColon(s) == |s|
  {
    if |s| >= 2 {
      DoubleColonAbsent(s[1..]);
    }
  }

  lemma {:induction false} DoubleColonAt(s: string, k: nat)
    requires k + 1 < |s| && s[k] == s[k + 1] == ':'
    requires forall j :: 0 <= j < k ==> !(s[j] == ':' && s[j + 1] == ':')
    ensures DoubleColon(s) == k
  {
    if k > 0 {
      DoubleColonAt(s[1..], k - 1);
    }
  }

  lemma SplitAtDouble(a: string, b: string)
    requires Clean(a)
    ensures DoubleColon(a + "::" + b) == |a|
    ensures (a + "::" + b)[..|a|] == a && (a + "::" + b)[|a| + 2..] == b
  {
    DoubleColonAt(a + "::" + b, |a|);
  }

  lemma SideBack(ts: seq<string>, gs: seq<nat>)
    requires AreHex(ts, gs)
    ensures ReadSide(Join(ts)) == Some(gs)
  {
    JoinClean(ts, gs);
    if gs != [] {
      JoinBack(ts, gs);
    }
  }

  lemma ExpandPlain(s: string, gs: seq<nat>)
    requires Clean(s) && ReadGroups(s) == Some(gs) && |gs| == 8
    ensures Expand(s) == Some(gs)
  {
    DoubleColonAbsent(s);
  }

  lemma ExpandDouble(a: string, b: string, ls: seq<nat>, rs: seq<nat>, gs: seq<nat>)
    requires Clean(a) && ReadSide(a) == Some(ls) && ReadSide(b) == Some(rs) && |ls| + |rs| < 8
    requires gs == ls + Zeros(8 - |ls| - |rs|) + rs
    ensures Expand(a + "::" + b) == Some(gs)
  {
    SplitAtDouble(a, b);
  }

  lemma ExpandWithout(gs: seq<nat>, ts: seq<string>)
    requires |gs| == 8 && AreHex(ts, gs)
    ensures Expand(Join(ts)) == Some(gs)
  {
    JoinClean(ts, gs);
    JoinBack(ts, gs);
    ExpandPlain(Join(ts), gs);
  }

  lemma FillZeros(gs: seq<nat>, a: nat, b: nat)
    requires a < b <= |gs| && forall i :: a <= i < b ==> gs[i] == 0
    ensures gs[..a] + Zeros(b - a) + gs[b..] == gs
  {
  }

  lemma ExpandAround(gs: seq<nat>, ts: seq<string>, a: nat, b: nat)
    requires |gs| == 8 && AreHex(ts, gs) && a < b <= 8 && forall i :: a <= i < b ==> gs[i] == 0
    ensures Expand(Join(ts[..a]) + "::" + Join(ts[b..])) == Some(gs)
  {
    JoinClean(ts[..a], gs[..a]);
    SideBack(ts[..a], gs[..a]);
    SideBack(ts[b..], gs[b..]);
    FillZeros(gs, a, b);
    ExpandDouble(Join(ts[..a]), Join(ts[b..]), gs[..a], gs[b..], gs);
  }

  lemma ExpandLayout(gs: seq<nat>, ts: seq<string>)
    requires |gs| == 8 && AreHex(ts, gs)
    ensures Expand(Layout(gs, ts)) == Some(gs)
  {
    var a := FirstZero(gs);
    if a == 8 {
      ExpandWithout(gs, ts);
    } else {
      ExpandAround(gs, ts, a, RunEnd(gs, a));
    }
  }

  /** Reading a printed address by section 2.2 of RFC 4291 gives its eight groups. */
  lemma ExpandPrint(gs: seq<nat>)
    requires IsAddress(gs)
    ensures Expand(Print(gs)) == Some(gs)
  {
    TextsAreHex(gs);
    ExpandLayout(gs, Texts(gs));
  }

  /** Different addresses have different texts. */
  lemma PrintInjective(gs: seq<nat>, hs: seq<nat>)
    requires IsAddress(gs) && IsAddress(hs) && Print(gs) == Print(hs)
    ensures gs == hs
  {
    ExpandPrint(gs);
    ExpandPrint(hs);
  }

  lemma LayoutDouble(gs: seq<nat>, ts: seq<string>, j: nat)
    requires AreHex(ts, gs) && j + 1 < |Layout(gs, ts)| && Layout(gs, ts)[j] == Layout(gs, ts)[j + 1] == ':'
    ensures 0 in gs && j == |Join(ts[..FirstZero(gs)])|
  {
    var a := FirstZero(gs);
    if a == |gs| {
      JoinClean(ts, gs);
    } else {
      var b := RunEnd(gs, a);
      JoinClean(ts[..a], gs[..a]);
      JoinClean(ts[b..], gs[b..]);
      DoubleAlone(Join(ts[..a]), Join(ts[b..]), j);
    }
  }

  /** A "::" stands only for zeros, and there is never more than one, nor ":::". */
  lemma OneDoubleColon(gs: seq<nat>, j: nat, k: nat)
    requires IsAddress(gs)
    requires j + 1 < |Print(gs)| && Print(gs)[j] == Print(gs)[j + 1] == ':'
    requires k + 1 < |Print(gs)| && Print(gs)[k] == Print(gs)[k + 1] == ':'
    ensures 0 in gs && j == k
  {
    TextsAreHex(gs);
    LayoutDouble(gs, Texts(gs), j);
    LayoutDouble(gs, Texts(gs), k);
  }

  lemma DoubleAlone(a: string, b: string, j: nat)
    requires Clean(a) && Clean(b) && j + 1 < |a + "::" + b| && (a + "::" + b)[j] == (a + "::" + b)[j + 1] == ':'
    ensures j == |a|
  {
    var s := a + "::" + b;
    assert s[|a|] == s[|a| + 1] == ':' && (forall i :: 0 <= i < |a| ==> s[i] == a[i]);
    assert forall i :: |a| + 2 <= i < |s| ==> s[i] == b[i - |a| - 2];
  }

  // ---------------------------------------------------------------- the whole line

  const OPEN: string := "[IPv6 ["

  function Line(gs: seq<nat>, port: nat): string {
    OPEN + (Print(gs) + "]" + (":" + Numeral(port, 10) + "]"))
  }

  /** The pieces in the order in which they are printed. */
  lemma LineParts(text: string, digits: string)
    ensures "[IPv6 [" + text + ("]:" + digits) + "]" == OPEN + (text + "]" + (":" + digits + "]"))
  {
  }

  method PrintLine(gs: seq<nat>, port: nat) returns (os: string)
    requires |gs| == 8
    ensures os == Line(gs, port)
  {
    os := "[IPv6 [";
    var text := PrintGroups(gs, Texts(gs));
    var digits := Numeral(port, 10);
    LineParts(text, digits);
    os := os + text;
    os := os + ("]:" + digits);
    os := os + "]";
  }

  /** `IPv6Address::Insert`: address and port as stored, in network order. */
  method Insert(address: seq<byte>, port: seq<byte>) returns (os: string)
    requires |address| == 16 && |port| == 2
    ensures os == Line(Groups(address), GetWord(port, false, true))
    ensures Shows(os, address, port)
  {
    LineMeaning(address, port);
    os := PrintLine(Groups(address), ByteSwap(Load(port, true), 2));
  }

  /** The address between the brackets and the port after them. */
  function ReadLine(s: string): Option<(seq<nat>, nat)> {
    if !(OPEN <= s) then None
    else
      var body := s[|OPEN|..];
      var k := IndexOf(body, ']');
      if k + 2 >= |body| || body[k + 1] != ':' || body[|body| - 1] != ']' then None
      else
        var gs, port := Expand(body[..k]), ReadNumeral(body[k + 1..][1..|body| - k - 2], 10);
        if gs.Some? && port.Some? then Some((gs.value, port.value)) else None
  }

  /** Read by section 2.2 of RFC 4291, the line gives the stored address and port. */
  predicate Shows(s: string, address: seq<byte>, port: seq<byte>)
    requires |address| == 16 && |port| == 2
  {
    && ReadLine(s).Some?
    && var (gs, p) := ReadLine(s).value;
       && |gs| == 8 && (forall i :: 0 <= i < 8 ==> gs[i] == 256 * (address[2 * i] as int) + address[2 * i + 1] as int)
       && p == 256 * (port[0] as int) + port[1] as int
  }

  lemma LineMeaning(address: seq<byte>, port: seq<byte>)
    requires |address| == 16 && |port| == 2
    ensures Shows(Line(Groups(address), GetWord(port, false, true)), address, port)
  {
    forall i | 0 <= i < 8
      ensures Groups(address)[i] == 256 * (address[2 * i] as int) + address[2 * i + 1] as int
    {
      GroupsMeaning(address, i);
    }
    NetworkWord(port);
    LineBack(Groups(address), GetWord(port, false, true));
  }

  lemma LayoutPlain(gs: seq<nat>, ts: seq<string>)
    requires AreHex(ts, gs)
    ensures ']' !in Layout(gs, ts)
  {
    var a := FirstZero(gs);
    var b := RunEnd(gs, a);
    JoinClean(ts, gs);
    JoinClean(ts[..a], gs[..a]);
    JoinClean(ts[b..], gs[b..]);
  }

  /** The whole line determines address and port. */
  lemma LineBack(gs: seq<nat>, port: nat)
    requires IsAddress(gs)
    ensures ReadLine(Line(gs, port)) == Some((gs, port))
  {
    var text, digits := Print(gs), Numeral(port, 10);
    TextsAreHex(gs);
    LayoutPlain(gs, Texts(gs));
    ExpandPrint(gs);
    NumeralBack(port, 10);
    var rest := ":" + digits + "]";
    var body := text + "]" + rest;
    IndexAfter(text, ']', rest);
    assert Line(gs, port)[|OPEN|..] == body;
    assert body[|text| + 1..] == rest && rest[1..|rest| - 1] == digits;
  }

  lemma {:induction false} GroupsInjective(a: seq<byte>, b: seq<byte>)
    requires |a| == |b| && |a| % 2 == 0 && Groups(a) == Groups(b)
    ensures a == b
  {
    if a != [] {
      assert Groups(a)[0] == Groups(b)[0] && Groups(a)[1..] == Groups(a[2..]) && Groups(b)[1..] == Groups(b[2..]);
      GroupsInjective(a[2..], b[2..]);
      WordInjective(a[..2], b[..2]);
      assert a == a[..2] + a[2..] && b == b[..2] + b[2..];
    }
  }

  lemma WordInjective(a: seq<byte>, b: seq<byte>)
    requires |a| == |b| && GetWord(a, false, true) == GetWord(b, false, true)
    ensures a == b
  {
    GetWordIsPortable(a, false, true);
    GetWordIsPortable(b, false, true);
    BytesRoundTrip(Reverse(a));
    BytesRoundTrip(Reverse(b));
    ReverseTwice(a);
    ReverseTwice(b);
  }

  lemma GroupsBound(a: seq<byte>, i: nat)
    requires i < |Groups(a)|
    ensures Groups(a)[i] < 65536
  {
    GroupsMeaning(a, i);
  }

  /** What `Insert` prints differs whenever the stored address or port does. */
  lemma InsertInjective(a: seq<byte>, p: seq<byte>, b: seq<byte>, q: seq<byte>)
    requires |a| == |b| == 16 && |p| == |q| == 2
    requires Line(Groups(a), GetWord(p, false, true)) == Line(Groups(b), GetWord(q, false, true))
    ensures a == b && p == q
  {
    forall i | 0 <= i < 8 ensures Groups(a)[i] < 65536 && Groups(b)[i] < 65536 {
      GroupsBound(a, i);
      GroupsBound(b, i);
    }
    LineBack(Groups(a), GetWord(p, false, true));
    LineBack(Groups(b), GetWord(q, false, true));
    GroupsInjective(a, b);
    WordInjective(p, q);
  }
}
