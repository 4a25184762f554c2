/** The text the panel shows: channel and program numbers, the voice name
    field, the port tabs and the two-letter mode tag. Strings are sequences
    of Unicode scalar values, one `char` per code point; JavaScript strings
    count UTF-16 code units instead, which differ only for characters
    outside the Basic Multilingual Plane. */
module Labels {
  import opened Common

  /** The eight port letters (`"ABCDEFGH"[port]`). */
  const Letters: string := "ABCDEFGH"

  predicate IsDigit(c: char) { '0' <= c <= '9' }
  predicate AllDigits(s: string) { forall i :: 0 <= i < |s| ==> IsDigit(s[i]) }

  function Digit(d: nat): (c: char)
    requires d < 10
    ensures IsDigit(c)
  {
    (48 + d) as char
  }

  function DigitValue(c: char): (d: nat)
    requires IsDigit(c)
    ensures d < 10 && Digit(d) == c
  {
    (c as int - 48) as nat
  }

  /** JavaScript's `${n}` for a non-negative integer. */
  function NatToDecimal(n: nat): (s: string)
    ensures |s| >= 1 && AllDigits(s)
    ensures |s| > 1 ==> s[0] != '0'
  {
    if n < 10 then [Digit(n)] else NatToDecimal(n / 10) + [Digit(n % 10)]
  }

  /** The value of a decimal digit string (the reading a user makes of it). */
  function DecimalValue(s: string): nat
    requires AllDigits(s)
  {
    if |s| == 0 then 0 else DecimalValue(s[..|s| - 1]) * 10 + DigitValue(s[|s| - 1])
  }

  function Pow10(k: nat): nat
  {
    if k == 0 then 1 else 10 * Pow10(k - 1)
  }

  /** Rendering then reading a number gives it back. */
  lemma {:induction false} DecimalRoundTrip(n: nat)
    ensures DecimalValue(NatToDecimal(n)) == n
  {
    if n >= 10 {
      var s := NatToDecimal(n);
      assert s[..|s| - 1] == NatToDecimal(n / 10);
      DecimalRoundTrip(n / 10);
    }
  }

  /** A number below 10^k takes at most k digits. */
  lemma {:induction false} DecimalLength(n: nat, k: nat)
    requires k >= 1 && n < Pow10(k)
    ensures |NatToDecimal(n)| <= k
  {
    if n >= 10 {
      DecimalLength(n / 10, k - 1);
    }
  }

  function Repeat(c: char, n: nat): (s: string)
    ensures |s| == n && forall i :: 0 <= i < n ==> s[i] == c
  {
    if n == 0 then [] else [c] + Repeat(c, n - 1)
  }

  /** `String.prototype.padStart(len, c)`. */
  function PadStart(s: string, len: nat, c: char): (r: string)
    ensures |r| == Max(len, |s|)
    ensures r[|r| - |s|..] == s
    ensures forall i :: 0 <= i < |r| - |s| ==> r[i] == c
  {
    if |s| >= len then s else Repeat(c, len - |s|) + s
  }

  /** `String.prototype.padEnd(len, c)`. */
  function PadEnd(s: string, len: nat, c: char): (r: string)
    ensures |r| == Max(len, |s|)
    ensures r[..|s|] == s
    ensures forall i :: |s| <= i < |r| ==> r[i] == c
  {
    if |s| >= len then s else s + Repeat(c, len - |s|)
  }

  /** Leading zeros do not change a number's value. */
  lemma {:induction false} ZeroPadValue(k: nat, s: string)
    requires AllDigits(s)
    ensures AllDigits(Repeat('0', k) + s)
    ensures DecimalValue(Repeat('0', k) + s) == DecimalValue(s)
    decreases |s|
  {
    var z := Repeat('0', k);
    if |s| == 0 {
      assert z + s == z;
      ZerosValue(k);
    } else {
      assert (z + s)[..|z + s| - 1] == z + s[..|s| - 1];
      ZeroPadValue(k, s[..|s| - 1]);
    }
  }

  lemma {:induction false} ZerosValue(k: nat)
    ensures AllDigits(Repeat('0', k)) && DecimalValue(Repeat('0', k)) == 0
  {
    if k > 0 {
      var z := Repeat('0', k);
      assert z[..k - 1] == Repeat('0', k - 1);
      ZerosValue(k - 1);
    }
  }

  /** `"ABCDEFGH"[port]` inside a template literal: ports past H read
      "undefined". */
  function PortLetter(port: nat): (s: string)
    ensures port < 8 ==> s == [Letters[port]]
  {
    if port < 8 then [Letters[port]] else "undefined"
  }

  /** Line 175: port letter and 1-based two-digit channel, e.g. "A01". */
  function ChannelLabel(ch: nat): (r: string)
    ensures ch < 128 ==> |r| == 3 && r[0] == Letters[ch / 16]
    ensures ch < 128 ==> AllDigits(r[1..]) && DecimalValue(r[1..]) == ch % 16 + 1
  {
    var p := PadStart(NatToDecimal(ch % 16 + 1), 2, '0');
    TwoDigits(ch % 16 + 1);
    var r := PortLetter(ch / 16) + p;
    assert ch < 128 ==> r[1..] == p;
    r
  }

  /** Reads a channel label back: letter A-H, then 01-16. */
  function ParseChannelLabel(s: string): Option<nat>
  {
    if |s| == 3 && 'A' <= s[0] <= 'H' && AllDigits(s[1..])
       && 1 <= DecimalValue(s[1..]) <= 16
    then Some((s[0] as int - 'A' as int) * 16 + DecimalValue(s[1..]) - 1)
    else None
  }

  /** A sub-channel number 1-16 is written with exactly two digits. */
  lemma TwoDigits(n: nat)
    requires 1 <= n <= 16
    ensures |PadStart(NatToDecimal(n), 2, '0')| == 2
    ensures AllDigits(PadStart(NatToDecimal(n), 2, '0'))
    ensures DecimalValue(PadStart(NatToDecimal(n), 2, '0')) == n
  {
    var d := NatToDecimal(n);
    DecimalLength(n, 2);
    DecimalRoundTrip(n);
    if |d| < 2 {
      assert PadStart(d, 2, '0') == Repeat('0', 2 - |d|) + d;
      ZeroPadValue(2 - |d|, d);
    }
  }

  lemma LetterIndex(k: nat)
    requires k < 8
    ensures 'A' <= Letters[k] <= 'H' && Letters[k] as int - 'A' as int == k
  {
  }

  /** The label of every channel of the eight ports is three characters and
      names the channel uniquely. */
  lemma ChannelLabelRoundTrip(ch: nat)
    requires ch < 128
    ensures |ChannelLabel(ch)| == 3
    ensures ParseChannelLabel(ChannelLabel(ch)) == Some(ch)
  {
    LetterIndex(ch / 16);
    assert (ch / 16) * 16 + ch % 16 == ch;
  }

  /** Line 195: the 1-based program number padded to three digits. It
      always reads back as the program number plus one, and programs 0..998
      take exactly three digits. */
  function ProgramLabel(prog: nat): (r: string)
    ensures |r| >= 3 && AllDigits(r) && DecimalValue(r) == prog + 1
    ensures prog < 999 ==> |r| == 3
  {
    var d := NatToDecimal(prog + 1);
    DecimalRoundTrip(prog + 1);
    assert prog < 999 ==> |d| <= 3 by {
      if prog < 999 {
        DecimalLength(prog + 1, 3);
      }
    }
    if |d| < 3 then
      assert PadStart(d, 3, '0') == Repeat('0', 3 - |d|) + d;
      ZeroPadValue(3 - |d|, d);
      PadStart(d, 3, '0')
    else
      PadStart(d, 3, '0')
  }

  const NameWidth: nat := 12

  /** Line 205: the voice name cut to 12 characters, or padded with spaces. */
  function FitName(name: string): (r: string)
    ensures |r| == NameWidth
    ensures forall i :: 0 <= i < Min(NameWidth, |name|) ==> r[i] == name[i]
    ensures forall i :: |name| <= i < NameWidth ==> r[i] == ' '
  {
    PadEnd(name[..Min(NameWidth, |name|)], NameWidth, ' ')
  }

  /** The name field is stable: fitting a fitted name changes nothing. */
  lemma FitNameIdempotent(name: string)
    ensures FitName(FitName(name)) == FitName(name)
  {
  }

  /** Line 249: the tab captions of the aggregated layouts. */
  function TabText(i: nat, minCh: nat): (r: string)
    requires i < 4
    ensures i == 3 ==> r == "128CH"
    ensures i < 3 ==> |r| >= 6 && AllDigits(r[..2]) && DecimalValue(r[..2]) == 16 * Pow2(i)
    ensures i < 3 ==> r[2..5] == "CH-" && r[5..] == PortLetter(minCh / 16)
  {
    if i == 3 then "128CH"
    else
      var n := 16 * Pow2(i);
      assert 16 <= n <= 64;
      DecimalRoundTrip(n);
      DecimalLength(n, 2);
      var r := NatToDecimal(n) + "CH-" + PortLetter(minCh / 16);
      assert r[..2] == NatToDecimal(n);
      r
  }

  lemma TabTextExamples()
    ensures TabText(0, 0) == "16CH-A" && TabText(1, 16) == "32CH-B"
    ensures TabText(2, 64) == "64CH-E" && TabText(3, 0) == "128CH"
  {
  }

  /** One port tab: caption, whether it is the highlighted tab, and where its
      caption is drawn (the selected tab sits one pixel lower). */
  datatype Tab = Tab(text: string, selected: bool, offX: nat, offY: nat)

  function TabAt(text: string, selected: bool, offX: nat): Tab
  {
    Tab(text, selected, offX, if selected then 59 else 58)
  }

  /** Tab `i` of render mode 0: port `portStart + i` of the channel's
      64-channel group, selected when it is the channel's own port. */
  function PartTab(ch: nat, i: nat): (t: Tab)
    requires i < 4
    ensures t.selected <==> i == (ch / 16) % 4
    ensures t.offY == 59 <==> t.selected
    ensures ch < 128 ==> t.text == "PART-" + [Letters[(ch / 64) * 4 + i]]
  {
    var portStart := (ch / 64) * 4;
    var portNow := ch / 16;
    var shiftX := (portStart / 64) % 2;
    GroupOfPort(ch);
    TabAt("PART-" + PortLetter(portStart + i), portStart + i == portNow, i * 40 + 2 + shiftX)
  }

  /** Lines 219-242: render mode 0 shows the four ports of the channel's
      64-channel group as `PART-x` tabs, the channel's own port selected. */
  function PartTabs(ch: nat): (tabs: seq<Tab>)
    ensures |tabs| == 4
    ensures forall i :: 0 <= i < 4 ==> (tabs[i].selected <==> i == (ch / 16) % 4)
    ensures forall i :: 0 <= i < 4 ==> (tabs[i].offY == 59 <==> tabs[i].selected)
    ensures ch < 128 ==> forall i :: 0 <= i < 4 ==> tabs[i].text == "PART-" + [Letters[(ch / 64) * 4 + i]]
  {
    [PartTab(ch, 0), PartTab(ch, 1), PartTab(ch, 2), PartTab(ch, 3)]
  }

  /** Lines 243-267: render modes 1-3 show the 16/32/64/128-channel views,
      the tab of the current mode selected. */
  function ViewTabs(rendMode: nat, minCh: nat): (tabs: seq<Tab>)
    ensures |tabs| == 4
    ensures forall i :: 0 <= i < 4 ==> (tabs[i].selected <==> i == rendMode)
    ensures forall i :: 0 <= i < 4 ==> (tabs[i].offY == 59 <==> tabs[i].selected)
    ensures forall i :: 0 <= i < 4 ==> tabs[i].text == TabText(i, minCh) && tabs[i].offX == i * 40 + 2
  {
    seq(4, i requires 0 <= i < 4 => TabAt(TabText(i, minCh), rendMode == i, i * 40 + 2))
  }

  /** Lines 218-268: the tabs of render modes 0-3; the switch has no case
      for any other mode, which draws none. Exactly one tab is selected. */
  function TabLayout(rendMode: nat, ch: nat, minCh: nat): (tabs: seq<Tab>)
    ensures rendMode > 3 ==> tabs == []
    ensures rendMode <= 3 ==> |tabs| == 4
    ensures rendMode <= 3 ==> forall i :: 0 <= i < 4 ==>
      (tabs[i].selected <==> i == (if rendMode == 0 then (ch / 16) % 4 else rendMode))
    ensures forall i :: 0 <= i < |tabs| ==> (tabs[i].offY == 59 <==> tabs[i].selected)
  {
    if rendMode == 0 then PartTabs(ch)
    else if rendMode <= 3 then ViewTabs(rendMode, minCh)
    else []
  }

  lemma GroupOfPort(ch: nat)
    ensures ch / 16 == (ch / 64) * 4 + (ch / 16) % 4
  {
  }

  /** Lines 40-54: short tags of the modes with a two-letter abbreviation. */
  const TwoLetterMode: map<string, string> := map[
    "?" := "  ", "mt32" := "mt", "doc" := "dc", "qy10" := "qy", "qy20" := "qy",
    "ns5r" := "n5", "x5d" := "xd", "05rw" := "rw", "k11" := "kg", "krs" := "kr",
    "s90es" := "es", "motif" := "es", "trin" := "tr"]

  function UpperChar(c: char): char
  {
    if 'a' <= c <= 'z' then (c as int - 32) as char else c
  }

  /** `String.prototype.toUpperCase` on the ASCII letters the tags use:
      no lower-case letter is left, each one becomes its capital, and every
      other character is kept. */
  function ToUpper(s: string): (r: string)
    ensures |r| == |s|
    ensures forall i :: 0 <= i < |r| ==> !('a' <= r[i] <= 'z')
    ensures forall i :: 0 <= i < |s| && 'a' <= s[i] <= 'z' ==> r[i] as int == s[i] as int - 32
    ensures forall i :: 0 <= i < |s| && !('a' <= s[i] <= 'z') ==> r[i] == s[i]
  {
    seq(|s|, i requires 0 <= i < |s| => UpperChar(s[i]))
  }

  /** Upper-casing twice is upper-casing once. */
  lemma ToUpperIdempotent(s: string)
    ensures ToUpper(ToUpper(s)) == ToUpper(s)
  {
  }

  /** Line 286: the channel's mode tag, its abbreviation when it has one and
      the mode name itself otherwise, upper-cased. */
  function ModeTag(chMode: string): (r: string)
    ensures chMode in TwoLetterMode ==> |r| == 2 && r == ToUpper(TwoLetterMode[chMode])
    ensures chMode !in TwoLetterMode ==> r == ToUpper(chMode)
  {
    var short := if chMode in TwoLetterMode then TwoLetterMode[chMode] else "";
    ToUpper(if short != "" then short else chMode)
  }

  lemma ModeTagExamples()
    ensures ModeTag("mt32") == "MT" && ModeTag("motif") == "ES"
    ensures ModeTag("xg") == "XG" && ModeTag("?") == "  "
  {
  }
}
