/** The gross-profit metric card: the whole-rupee profit written with the
    rupee sign and a comma between groups of three digits. */
module ProfitDisplay {
  import opened Wrappers

  /** The rupee sign followed by a space. */
  const Prefix: string := "\U{20B9} "

  predicate IsDigit(c: char) {
    '0' <= c <= '9'
  }

  ghost predicate AllDigits(s: string) {
    forall i :: 0 <= i < |s| ==> IsDigit(s[i])
  }

  function DigitChar(d: int): (c: char)
    requires 0 <= d < 10
    ensures IsDigit(c) && c as int - '0' as int == d
  {
    ('0' as int + d) as char
  }

  function Abs(n: int): nat {
    if n < 0 then -n else n
  }

  /** The plain decimal form of `n`: its digits, most significant first. It
      has no leading zero unless it is "0". */
  function Digits(n: nat): (s: string)
    ensures 1 <= |s| && AllDigits(s)
    ensures s[0] == '0' ==> s == "0"
    decreases n
  {
    if n < 10 then [DigitChar(n)] else Digits(n / 10) + [DigitChar(n % 10)]
  }

  /** The number a digit string denotes, read from the left. */
  ghost function ValueOf(s: string): int
    decreases |s|
  {
    if s == [] then 0 else ValueOf(s[..|s| - 1]) * 10 + (s[|s| - 1] as int - '0' as int)
  }

  lemma {:induction false} DigitsDenoteValue(n: nat)
    ensures ValueOf(Digits(n)) == n
    decreases n
  {
    if n >= 10 {
      DigitsDenoteValue(n / 10);
      var s := Digits(n);
      assert s[..|s| - 1] == Digits(n / 10);
    }
  }

  /** The text with its commas deleted. */
  function StripCommas(s: string): string
    decreases |s|
  {
    if s == [] then [] else StripCommas(s[..|s| - 1]) + (if s[|s| - 1] == ',' then [] else [s[|s| - 1]])
  }

  lemma {:induction false} StripCommasAppend(a: string, b: string)
    ensures StripCommas(a + b) == StripCommas(a) + StripCommas(b)
    decreases |b|
  {
    if b != [] {
      var b' := b[..|b| - 1];
      assert (a + b)[..|a + b| - 1] == a + b';
      StripCommasAppend(a, b');
    } else {
      assert a + b == a;
    }
  }

  lemma {:induction false} StripCommasOfDigits(s: string)
    requires AllDigits(s)
    ensures StripCommas(s) == s
    decreases |s|
  {
    if s != [] {
      StripCommasOfDigits(s[..|s| - 1]);
    }
  }

  /** Digit groups separated by commas: a comma stands exactly at every
      fourth position counted from the right end, every other character is
      a digit, and the leading group has one to three digits. */
  ghost predicate WellGrouped(s: string) {
    && |s| % 4 != 0
    && (forall i :: 0 <= i < |s| ==> (s[i] == ',' <==> (|s| - i) % 4 == 0))
    && (forall i :: 0 <= i < |s| && s[i] != ',' ==> IsDigit(s[i]))
  }

  /** Adding a comma and a full group of three digits to well-formed
      groups keeps them well formed. */
  lemma AppendGroup(g: string, last: string)
    requires WellGrouped(g) && |last| == 3 && AllDigits(last)
    ensures WellGrouped(g + [','] + last)
  {
    var s := g + [','] + last;
    assert |s| == |g| + 4;
    forall i | 0 <= i < |g|
      ensures s[i] == g[i] && (|s| - i) % 4 == (|g| - i) % 4
    {
      assert |s| - i == (|g| - i) + 4;
    }
    forall i | |g| < i < |s|
      ensures s[i] == last[i - |g| - 1] && 1 <= |s| - i <= 3
    {
    }
  }

  /** One to three digits already form a single well-formed group. */
  lemma SingleGroup(ds: string)
    requires |ds| <= 3
    ensures AllDigits(ds) ==> StripCommas(ds) == ds
    ensures AllDigits(ds) && ds != [] ==> WellGrouped(ds)
  {
    if AllDigits(ds) {
      StripCommasOfDigits(ds);
      if ds != [] {
        SingleGroupIsWellGrouped(ds);
      }
    }
  }

  lemma SingleGroupIsWellGrouped(ds: string)
    requires 1 <= |ds| <= 3 && AllDigits(ds)
    ensures WellGrouped(ds)
  {
    forall i | 0 <= i < |ds|
      ensures ds[i] != ',' && (|ds| - i) % 4 != 0
    {
      assert IsDigit(ds[i]);
      var d := |ds| - i;
      assert d == 1 || d == 2 || d == 3;
    }
    assert |ds| == 1 || |ds| == 2 || |ds| == 3;
  }

  /** If `g` groups the digits `front`, then `g`, a comma and three more
      digits group `front` followed by those digits. */
  lemma GroupStep(front: string, last: string, g: string)
    requires 1 <= |front| && |last| == 3
    requires AllDigits(front) ==> StripCommas(g) == front && WellGrouped(g)
    ensures AllDigits(front + last) ==>
      StripCommas(g + "," + last) == front + last && WellGrouped(g + "," + last)
  {
    if AllDigits(front + last) {
      assert forall i :: 0 <= i < |front| ==> front[i] == (front + last)[i];
      assert forall i :: 0 <= i < |last| ==> last[i] == (front + last)[|front| + i];
      AppendGroup(g, last);
      StripCommasAppend(g + [','], last);
      StripCommasAppend(g, [',']);
      StripCommasOfDigits(last);
      assert StripCommas([',']) == [];
    }
  }

  /** The thousands separator of the `,` format option: a comma between each
      group of three digits, counted from the right. Applied to digits it
      gives well-formed groups, and deleting its commas gives the digits
      back. */
  function Group(ds: string): (r: string)
    ensures ds == [] ==> r == []
    ensures AllDigits(ds) ==> StripCommas(r) == ds
    ensures AllDigits(ds) && ds != [] ==> WellGrouped(r)
    decreases |ds|
  {
    if |ds| <= 3 then
      SingleGroup(ds);
      ds
    else
      var front, last := ds[..|ds| - 3], ds[|ds| - 3..];
      assert front + last == ds;
      GroupStep(front, last, Group(front));
      Group(front) + "," + last
  }

  /** Reads digit groups back as the number they denote. */
  ghost function ParseGroups(body: string): Option<int> {
    if WellGrouped(body) then Some(ValueOf(StripCommas(body))) else None
  }

  /** Reads a card text back: the prefix, an optional minus sign, then
      well-formed digit groups. */
  ghost function ParseProfit(s: string): Option<int> {
    if !(Prefix <= s) then None
    else
      var rest := s[|Prefix|..];
      var negative := rest != [] && rest[0] == '-';
      match ParseGroups(if negative then rest[1..] else rest)
      case None => None
      case Some(magnitude) => Some(if negative then -magnitude else magnitude)
  }

  /** Well-formed groups start with a digit, so never with a minus sign. */
  lemma WellGroupedStartsWithDigit(body: string)
    requires WellGrouped(body)
    ensures |body| > 0 && IsDigit(body[0])
  {
    assert body[0] != ',';
  }

  /** The parser reads the sign and the digit groups back. */
  lemma ParseSignedGroups(negative: bool, body: string)
    requires WellGrouped(body)
    ensures ParseProfit(Prefix + (if negative then "-" else "") + body)
         == Some(if negative then -ValueOf(StripCommas(body)) else ValueOf(StripCommas(body)))
  {
    WellGroupedStartsWithDigit(body);
    var sign := if negative then "-" else "";
    var s := Prefix + sign + body;
    assert s[..|Prefix|] == Prefix;
    var rest := s[|Prefix|..];
    assert rest == sign + body;
    if negative {
      assert rest[1..] == body;
    }
  }

  /** `f"₹ {profit:,.0f}"` for a whole-rupee profit. The text starts with
      the rupee prefix, and reading it back gives the profit: no information
      is lost by the formatting. */
  function FormatProfit(profit: int): (s: string)
    ensures Prefix <= s
    ensures ParseProfit(s) == Some(profit)
  {
    var ds := Digits(Abs(profit));
    DigitsDenoteValue(Abs(profit));
    ParseSignedGroups(profit < 0, Group(ds));
    Prefix + (if profit < 0 then "-" else "") + Group(ds)
  }

  /** The card text is the prefix, a minus sign exactly for a loss, then
      well-formed digit groups that read, once the commas are deleted, as the
      plain decimal form of the profit's magnitude. */
  lemma FormatProfitLayout(profit: int)
    ensures var s, k := FormatProfit(profit), |Prefix| + (if profit < 0 then 1 else 0);
      && k < |s|
      && s[..|Prefix|] == Prefix
      && (s[|Prefix|] == '-' <==> profit < 0)
      && WellGrouped(s[k..])
      && StripCommas(s[k..]) == Digits(Abs(profit))
  {
    var ds := Digits(Abs(profit));
    var s, k := FormatProfit(profit), |Prefix| + (if profit < 0 then 1 else 0);
    assert s[k..] == Group(ds);
    assert |Group(ds)| % 4 != 0;
    assert Group(ds)[0] != ',';
  }

  /** A profit of 250000 rupees is shown as "₹ 250,000". */
  lemma FormatProfitExample()
    ensures FormatProfit(250000) == "\U{20B9} 250,000"
  {
    GroupExample();
    assert Digits(250000) == "250000";
  }

  /** "250000" is grouped as "250,000". */
  lemma GroupExample()
    ensures Group("250000") == "250,000"
  {
    assert "250000"[..3] == "250" && "250000"[3..] == "000";
  }
}
