/** Automatic column detection: each daily table's measure column is the
    first header whose lower-cased text contains a keyword. */
module ColumnDetection {
  import opened Wrappers
  import opened Errors

  const CountKeyword: string := "count"
  const RetentionKeyword: string := "retention"
  const ProfitKeyword: string := "profit"

  predicate IsAsciiUpper(c: char) {
    'A' <= c <= 'Z'
  }

  /** Lower-cases an ASCII letter: the result is never an upper-case ASCII
      letter, and only an upper-case letter is changed, to the letter 32
      code points above it. */
  function LowerChar(c: char): (r: char)
    ensures !IsAsciiUpper(r)
    ensures r == c || (IsAsciiUpper(c) && r as int == c as int + 32)
  {
    if IsAsciiUpper(c) then (c as int - 'A' as int + 'a' as int) as char else c
  }

  /** `str.lower`, restricted to ASCII letters: same length, no upper-case
      ASCII letter left, and each character kept or lower-cased in place. */
  function Lower(s: string): (r: string)
    ensures |r| == |s|
    ensures forall i :: 0 <= i < |r| ==> !IsAsciiUpper(r[i])
    ensures forall i :: 0 <= i < |r| ==>
      r[i] == s[i] || (IsAsciiUpper(s[i]) && r[i] as int == s[i] as int + 32)
  {
    seq(|s|, i requires 0 <= i < |s| => LowerChar(s[i]))
  }

  /** `keyword` occurs in `text` starting at position `p`. */
  ghost predicate OccursAt(keyword: string, text: string, p: int) {
    0 <= p && p + |keyword| <= |text| && text[p..p + |keyword|] == keyword
  }

  /** `keyword` occurs in `text` at some position (Python's `keyword in text`). */
  ghost predicate OccursIn(keyword: string, text: string) {
    exists p :: OccursAt(keyword, text, p)
  }

  /** A slice of the text without its first character is the slice of the
      text one position further right. */
  lemma TailSlice(text: string, lo: int, hi: int)
    requires text != [] && 0 <= lo <= hi <= |text| - 1
    ensures text[1..][lo..hi] == text[lo + 1..hi + 1]
  {
    forall j | 0 <= j < hi - lo
      ensures text[1..][lo..hi][j] == text[lo + 1..hi + 1][j]
    {
    }
  }

  /** When the keyword is not a prefix of a non-empty text, it occurs in the
      text exactly when it occurs in the text without its first character. */
  lemma OccursInTail(text: string, keyword: string)
    requires text != [] && !(keyword <= text)
    ensures OccursIn(keyword, text) <==> OccursIn(keyword, text[1..])
  {
    var k, tail := |keyword|, text[1..];
    if OccursIn(keyword, text) {
      var p :| OccursAt(keyword, text, p);
      TailSlice(text, p - 1, p - 1 + k);
      assert OccursAt(keyword, tail, p - 1);
    }
    if OccursIn(keyword, tail) {
      var p :| OccursAt(keyword, tail, p);
      TailSlice(text, p, p + k);
      assert OccursAt(keyword, text, p + 1);
    }
  }

  /** The substring test `keyword in text`, scanning `text` from the left:
      it succeeds exactly when the keyword occurs at some position. */
  function Contains(text: string, keyword: string): (b: bool)
    ensures b <==> OccursIn(keyword, text)
    decreases |text|
  {
    if keyword <= text then
      assert OccursAt(keyword, text, 0);
      true
    else if text == [] then false
    else
      OccursInTail(text, keyword);
      Contains(text[1..], keyword)
  }

  /** The header's lower-cased text contains the keyword. */
  ghost predicate HeaderMatches(header: string, keyword: string) {
    OccursIn(keyword, Lower(header))
  }

  /** Some header matches the keyword. */
  ghost predicate HasMatch(headers: seq<string>, keyword: string) {
    exists i :: 0 <= i < |headers| && HeaderMatches(headers[i], keyword)
  }

  /** Header `i` matches and no earlier header does. */
  ghost predicate IsFirstMatch(headers: seq<string>, keyword: string, i: int) {
    && 0 <= i < |headers|
    && HeaderMatches(headers[i], keyword)
    && forall j :: 0 <= j < i ==> !HeaderMatches(headers[j], keyword)
  }

  /** `header` is the header at the first matching position. */
  ghost predicate IsFirstMatchOf(headers: seq<string>, keyword: string, header: string) {
    exists i :: IsFirstMatch(headers, keyword, i) && headers[i] == header
  }

  /** `[c for c in columns if keyword in c.lower()]`, in header order: no
      longer than the headers, every entry a header that matches, and every
      matching header present. */
  function MatchingColumns(headers: seq<string>, keyword: string): (r: seq<string>)
    ensures |r| <= |headers|
    ensures forall k :: 0 <= k < |r| ==> r[k] in headers && HeaderMatches(r[k], keyword)
    ensures forall i :: 0 <= i < |headers| && HeaderMatches(headers[i], keyword) ==> headers[i] in r
    decreases |headers|
  {
    if headers == [] then []
    else
      (if Contains(Lower(headers[0]), keyword) then [headers[0]] else [])
      + MatchingColumns(headers[1..], keyword)
  }

  /** The list of matches is empty exactly when no header matches, and
      otherwise starts with the first matching header. */
  lemma {:induction false} MatchingColumnsStartWithFirstMatch(headers: seq<string>, keyword: string)
    ensures MatchingColumns(headers, keyword) == [] <==> !HasMatch(headers, keyword)
    ensures MatchingColumns(headers, keyword) != [] ==>
      IsFirstMatchOf(headers, keyword, MatchingColumns(headers, keyword)[0])
    decreases |headers|
  {
    if headers != [] {
      var tail := headers[1..];
      MatchingColumnsStartWithFirstMatch(tail, keyword);
      if HeaderMatches(headers[0], keyword) {
        assert IsFirstMatch(headers, keyword, 0);
      } else {
        if HasMatch(headers, keyword) {
          var i :| 0 <= i < |headers| && HeaderMatches(headers[i], keyword);
          assert tail[i - 1] == headers[i];
        }
        if HasMatch(tail, keyword) {
          var i :| 0 <= i < |tail| && HeaderMatches(tail[i], keyword);
          assert headers[i + 1] == tail[i];
        }
        if MatchingColumns(tail, keyword) != [] {
          var i :| IsFirstMatch(tail, keyword, i) && tail[i] == MatchingColumns(tail, keyword)[0];
          assert IsFirstMatch(headers, keyword, i + 1);
        }
      }
    }
  }

  /** `[...][0]`: the first matching header, or None where Python raises
      `IndexError` on the empty list of matches. */
  function ResolveColumn(headers: seq<string>, keyword: string): (r: Option<string>)
    ensures r.None? <==> !HasMatch(headers, keyword)
    ensures r.Some? ==> IsFirstMatchOf(headers, keyword, r.value)
  {
    MatchingColumnsStartWithFirstMatch(headers, keyword);
    var matches := MatchingColumns(headers, keyword);
    if |matches| == 0 then None else Some(matches[0])
  }

  /** The first-match condition determines the result: whenever header `i`
      is the first to match, resolution returns it. In particular a header
      that is the only match is returned. */
  lemma ResolveColumnIsDetermined(headers: seq<string>, keyword: string, i: int)
    requires IsFirstMatch(headers, keyword, i)
    ensures ResolveColumn(headers, keyword) == Some(headers[i])
  {
  }

  /** The three measure columns the line charts plot. */
  datatype MeasureColumns = MeasureColumns(count: string, retention: string, profit: string)

  /** One detection line: the resolved column, or the keyword that failed. */
  function RequireColumn(headers: seq<string>, keyword: string): (r: Result<string, Error>)
    ensures r.Ok? <==> HasMatch(headers, keyword)
    ensures r.Err? ==> r.error == NoMatchingColumn(keyword)
    ensures r.Ok? ==> IsFirstMatchOf(headers, keyword, r.value)
  {
    match ResolveColumn(headers, keyword)
    case None => Err(NoMatchingColumn(keyword))
    case Some(header) => Ok(header)
  }

  /** The three detection lines, in the script's order: customer counts,
      retention, profit. The first table without a matching header stops
      the run; otherwise each column is its table's first match. */
  function DetectColumns(countHeaders: seq<string>, retentionHeaders: seq<string>,
                         profitHeaders: seq<string>): (r: Result<MeasureColumns, Error>)
    ensures r.Ok? <==>
      && HasMatch(countHeaders, CountKeyword)
      && HasMatch(retentionHeaders, RetentionKeyword)
      && HasMatch(profitHeaders, ProfitKeyword)
    ensures !HasMatch(countHeaders, CountKeyword) ==>
      r == Err(NoMatchingColumn(CountKeyword))
    ensures HasMatch(countHeaders, CountKeyword) && !HasMatch(retentionHeaders, RetentionKeyword) ==>
      r == Err(NoMatchingColumn(RetentionKeyword))
    ensures (HasMatch(countHeaders, CountKeyword) && HasMatch(retentionHeaders, RetentionKeyword)
             && !HasMatch(profitHeaders, ProfitKeyword)) ==>
      r == Err(NoMatchingColumn(ProfitKeyword))
    ensures r.Ok? ==>
      && IsFirstMatchOf(countHeaders, CountKeyword, r.value.count)
      && IsFirstMatchOf(retentionHeaders, RetentionKeyword, r.value.retention)
      && IsFirstMatchOf(profitHeaders, ProfitKeyword, r.value.profit)
  {
    var count :- RequireColumn(countHeaders, CountKeyword);
    var retention :- RequireColumn(retentionHeaders, RetentionKeyword);
    var profit :- RequireColumn(profitHeaders, ProfitKeyword);
    Ok(MeasureColumns(count, retention, profit))
  }

  /** Headers "Date" and "Daily_Count_Value" resolve "count" to the second. */
  lemma ResolveCountExample()
    ensures ResolveColumn(["Date", "Daily_Count_Value"], CountKeyword) == Some("Daily_Count_Value")
  {
    var headers := ["Date", "Daily_Count_Value"];
    assert Lower("Daily_Count_Value") == "daily_count_value";
    assert "daily_count_value"[6..11] == CountKeyword;
    assert OccursAt(CountKeyword, Lower(headers[1]), 6);
    assert |Lower(headers[0])| < |CountKeyword|;
    assert IsFirstMatch(headers, CountKeyword, 1);
    ResolveColumnIsDetermined(headers, CountKeyword, 1);
  }

  /** Headers "Date" and "Value" have no column for "retention". */
  lemma ResolveRetentionMissingExample()
    ensures ResolveColumn(["Date", "Value"], RetentionKeyword) == None
  {
    assert Lower("Date") == "date";
    assert Lower("Value") == "value";
  }
}
