/** Stream entry IDs, <milliseconds>-<sequence>: their order, their text form and the
    helpers of internal/api/stream_value_handler.go. */
module EntryIds {
  import opened Common

  datatype EntryId = EntryId(ms: int, number: int)

  const ZERO_ID := EntryId(0, 0)

  predicate Less(a: EntryId, b: EntryId) {
    a.ms < b.ms || (a.ms == b.ms && a.number < b.number)
  }

  predicate AtMost(a: EntryId, b: EntryId) {
    a == b || Less(a, b)
  }

  /** Both halves fit the int64 the Go code parses them into. */
  predicate Representable(id: EntryId) {
    0 <= id.ms <= MAX_INT64 && 0 <= id.number <= MAX_INT64
  }

  predicate IsDigit(c: char) {
    '0' <= c <= '9'
  }

  function Digit(n: nat): char
    requires n < 10
  {
    '0' + n as char
  }

  function PrintNat(n: nat): (s: string)
    ensures s != "" && forall i :: 0 <= i < |s| ==> IsDigit(s[i])
  {
    if n < 10 then [Digit(n)] else PrintNat(n / 10) + [Digit(n % 10)]
  }

  function DigitsValue(s: string): Option<nat> {
    if s == "" then Some(0)
    else
      var n := |s| - 1;
      match DigitsValue(s[..n])
      case None => None
      case Some(v) => if IsDigit(s[n]) then Some(10 * v + (s[n] - '0') as int) else None
  }

  /** strconv.Atoi: an optional sign, at least one digit, and a result in the int64 range. */
  function Atoi(s: string): Option<int> {
    var signed := s != "" && (s[0] == '-' || s[0] == '+');
    var digits := if signed then s[1..] else s;
    if digits == "" then None
    else
      match DigitsValue(digits)
      case None => None
      case Some(v) =>
        var n := if signed && s[0] == '-' then 0 - v else v;
        if IsInt64(n) then Some(n) else None
  }

  lemma {:induction false} DigitsValueOfPrinted(n: nat)
    ensures DigitsValue(PrintNat(n)) == Some(n)
  {
    if n < 10 {
      assert [Digit(n)][..0] == "";
    } else {
      DigitsValueOfPrinted(n / 10);
      assert PrintNat(n)[..|PrintNat(n)| - 1] == PrintNat(n / 10);
    }
  }

  lemma AtoiOfPrinted(n: nat)
    requires n <= MAX_INT64
    ensures Atoi(PrintNat(n)) == Some(n)
  {
    DigitsValueOfPrinted(n);
    assert IsDigit(PrintNat(n)[0]);
  }

  /** strings.Split on '-'. */
  function SplitDash(s: string): (r: seq<string>)
    ensures r != []
    ensures forall i :: 0 <= i < |r| ==> '-' !in r[i]
  {
    if s == "" then [""]
    else
      var rest := SplitDash(s[1..]);
      if s[0] == '-' then [""] + rest else [[s[0]] + rest[0]] + rest[1..]
  }

  lemma {:induction false} SplitWhole(s: string)
    requires '-' !in s
    ensures SplitDash(s) == [s]
  {
    if s != "" {
      SplitWhole(s[1..]);
      assert s == [s[0]] + s[1..];
    }
  }

  lemma {:induction false} SplitPair(a: string, b: string)
    requires '-' !in a && '-' !in b
    ensures SplitDash(a + "-" + b) == [a, b]
  {
    if a == "" {
      assert (a + "-" + b)[1..] == b;
      SplitWhole(b);
    } else {
      assert (a + "-" + b)[1..] == a[1..] + "-" + b;
      SplitPair(a[1..], b);
      assert a == [a[0]] + a[1..];
    }
  }

  function ParseEntryId(s: string): Option<EntryId> {
    var pieces := SplitDash(s);
    if |pieces| != 2 then None
    else
      match (Atoi(pieces[0]), Atoi(pieces[1]))
      case (Some(ms), Some(number)) => Some(EntryId(ms, number))
      case _ => None
  }

  function PrintEntryId(id: EntryId): string
    requires id.ms >= 0 && id.number >= 0
  {
    PrintNat(id.ms) + "-" + PrintNat(id.number)
  }

  /** Round trip: parsing the printed form of any representable ID gives the ID back. */
  lemma ParsePrintEntryId(id: EntryId)
    requires Representable(id)
    ensures ParseEntryId(PrintEntryId(id)) == Some(id)
  {
    SplitPair(PrintNat(id.ms), PrintNat(id.number));
    AtoiOfPrinted(id.ms);
    AtoiOfPrinted(id.number);
  }

  /** Whatever string is parsed, the halves are never negative: the sign is the separator. */
  lemma ParsedIsRepresentable(s: string)
    requires ParseEntryId(s).Some?
    ensures Representable(ParseEntryId(s).value)
  {
    var pieces := SplitDash(s);
    assert pieces[0] != "" && pieces[0][0] in pieces[0];
    assert pieces[1] != "" && pieces[1][0] in pieces[1];
  }

  function GetMaxEntryId(a: string, b: string): Option<string> {
    match (ParseEntryId(a), ParseEntryId(b))
    case (Some(x), Some(y)) =>
      if x.ms < y.ms || (x.ms == y.ms && x.number < y.number) then Some(b) else Some(a)
    case _ => None
  }

  /** `id` bounds the IDs and is one of them, or zero if there are none. */
  ghost predicate IsMaximum(ids: seq<EntryId>, id: EntryId) {
    && (if ids == [] then id == ZERO_ID else id in ids)
    && forall x :: x in ids ==> AtMost(x, id)
  }

  /** The paging loop's fold of getMaxEntryID over the text of the IDs, from "0-0". */
  method MaxEntryId(texts: seq<string>, ghost ids: seq<EntryId>) returns (r: string)
    requires |texts| == |ids|
    requires forall i :: 0 <= i < |ids| ==>
               Representable(ids[i]) && Less(ZERO_ID, ids[i]) && texts[i] == PrintEntryId(ids[i])
    ensures exists max :: IsMaximum(ids, max) && Representable(max) && r == PrintEntryId(max)
  {
    r := "0-0";
    ghost var max := ZERO_ID;
    assert PrintEntryId(ZERO_ID) == "0-0";
    for i := 0 to |texts|
      invariant IsMaximum(ids[..i], max)
      invariant Representable(max) && r == PrintEntryId(max)
    {
      ParsePrintEntryId(max);
      ParsePrintEntryId(ids[i]);
      assert ids[..i + 1] == ids[..i] + [ids[i]];
      r := GetMaxEntryId(r, texts[i]).value;
      if Less(max, ids[i]) {
        max := ids[i];
      }
    }
    assert ids[..|texts|] == ids;
  }

  ghost predicate Increasing(ids: seq<EntryId>) {
    forall i, j :: 0 <= i < j < |ids| ==> Less(ids[i], ids[j])
  }

  /** On a page in ID order the maximum is the last ID. */
  lemma MaximumIsLast(ids: seq<EntryId>, id: EntryId)
    requires Increasing(ids) && ids != []
    requires IsMaximum(ids, id)
    ensures id == ids[|ids| - 1]
  {
    assert AtMost(ids[|ids| - 1], id);
    var k :| 0 <= k < |ids| && ids[k] == id;
  }
}
