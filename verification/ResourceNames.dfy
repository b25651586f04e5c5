/** Resource names such as accounts/<id>/streams/<id>: the parser of pkg/middleware/utils.go
    (a regular expression searched anywhere in the name) and the printer the handlers use. */
module ResourceNames {
  import opened Common

  /** The character class of an ID: digits, letters, '-', '@' and '.'. */
  predicate IdChar(c: char) {
    '0' <= c <= '9' || 'a' <= c <= 'z' || 'A' <= c <= 'Z' || c == '-' || c == '@' || c == '.'
  }

  lemma DigitIff(c: char)
    ensures '0' <= c <= '9' <==> c in "0123456789"
  {
    if '0' <= c <= '9' {
      assert "0123456789"[c as int - '0' as int] == c;
    }
  }

  lemma LowerIff(c: char)
    ensures 'a' <= c <= 'z' <==> c in "abcdefghijklmnopqrstuvwxyz"
  {
    if 'a' <= c <= 'z' {
      assert "abcdefghijklmnopqrstuvwxyz"[c as int - 'a' as int] == c;
    }
  }

  lemma UpperIff(c: char)
    ensures 'A' <= c <= 'Z' <==> c in "ABCDEFGHIJKLMNOPQRSTUVWXYZ"
  {
    if 'A' <= c <= 'Z' {
      assert "ABCDEFGHIJKLMNOPQRSTUVWXYZ"[c as int - 'A' as int] == c;
    }
  }

  /** The class, character by character. */
  lemma IdCharIff(c: char)
    ensures IdChar(c) <==>
            c in "0123456789" || c in "abcdefghijklmnopqrstuvwxyz" || c in "ABCDEFGHIJKLMNOPQRSTUVWXYZ" || c in "-@."
  {
    DigitIff(c);
    LowerIff(c);
    UpperIff(c);
    assert "-@."[0] == '-' && "-@."[1] == '@' && "-@."[2] == '.';
  }

  predicate AllIdChars(s: string) {
    forall i :: 0 <= i < |s| ==> IdChar(s[i])
  }

  predicate IsId(s: string) {
    s != "" && AllIdChars(s)
  }

  /** Prefixes are pasted into a pattern, so they must not contain pattern characters. */
  predicate IsLiteral(s: string) {
    forall i :: 0 <= i < |s| ==> !PatternChar(s[i])
  }

  predicate PatternChar(c: char) {
    || c == '\\' || c == '.' || c == '+' || c == '*' || c == '?' || c == '(' || c == ')'
    || c == '|' || c == '[' || c == ']' || c == '{' || c == '}' || c == '^' || c == '$'
  }

  predicate Literals(prefixes: seq<string>) {
    forall i :: 0 <= i < |prefixes| ==> IsLiteral(prefixes[i])
  }

  predicate Ids(ids: seq<string>) {
    forall i :: 0 <= i < |ids| ==> IsId(ids[i])
  }

  /** prefix/id/prefix/id/... */
  function Print(prefixes: seq<string>, ids: seq<string>): string
    requires |prefixes| == |ids|
  {
    if prefixes == [] then ""
    else
      prefixes[0] + "/" + ids[0] +
      if |prefixes| == 1 then "" else "/" + Print(prefixes[1..], ids[1..])
  }

  /** The longest run of ID characters at the start of `s`. */
  function IdRun(s: string): (r: string)
    ensures r <= s && AllIdChars(r)
    ensures |r| < |s| ==> !IdChar(s[|r|])
  {
    if s == "" || !IdChar(s[0]) then "" else [s[0]] + IdRun(s[1..])
  }

  /** Match the pattern at the very start of `s`, giving the captured IDs.  An ID is followed
      by '/' or ends the match, and '/' is no ID character, so greedy repetition never backs
      up. */
  function MatchHere(s: string, prefixes: seq<string>): (r: Option<seq<string>>)
    requires prefixes != []
    ensures r.Some? ==> |r.value| == |prefixes| && Ids(r.value)
    decreases |prefixes|
  {
    var p := prefixes[0] + "/";
    if !(p <= s) then None
    else
      var rest := s[|p|..];
      var id := IdRun(rest);
      var q := id + "/";
      if id == "" then None
      else if |prefixes| == 1 then Some([id])
      else if !(q <= rest) then None
      else
        match MatchHere(rest[|q|..], prefixes[1..])
        case None => None
        case Some(ids) => Some([id] + ids)
  }

  /** The leftmost match. */
  function Search(s: string, prefixes: seq<string>): (r: Option<seq<string>>)
    requires prefixes != []
    ensures r.Some? ==> |r.value| == |prefixes| && Ids(r.value)
    decreases |s|
  {
    match MatchHere(s, prefixes)
    case Some(ids) => Some(ids)
    case None => if s == "" then None else Search(s[1..], prefixes)
  }

  /** ParseResourceName; without prefixes the pattern has one group too many and never fits. */
  function ParseResourceName(name: string, prefixes: seq<string>): (r: Result<seq<string>>)
    requires Literals(prefixes)
    ensures r.Ok? ==> |r.value| == |prefixes| && Ids(r.value)
    ensures r.Err? ==> r.status == InvalidArgument
  {
    if prefixes == [] then Err(InvalidArgument)
    else
      match Search(name, prefixes)
      case None => Err(InvalidArgument)
      case Some(ids) => Ok(ids)
  }

  /** What a match at the start of `s` means: the name printed from the IDs, ending where no
      further ID character follows. */
  ghost predicate Occurs(s: string, prefixes: seq<string>, ids: seq<string>) {
    && |ids| == |prefixes|
    && Ids(ids)
    && Print(prefixes, ids) <= s
    && (|Print(prefixes, ids)| < |s| ==> !IdChar(s[|Print(prefixes, ids)|]))
  }

  lemma {:induction false} IdRunIs(id: string, s: string)
    requires AllIdChars(id) && id <= s
    requires |id| < |s| ==> !IdChar(s[|id|])
    ensures IdRun(s) == id
    decreases |s|
  {
    if id != "" {
      assert AllIdChars(id[1..]) by {
        assert forall i :: 0 <= i < |id| - 1 ==> id[1..][i] == id[i + 1];
      }
      IdRunIs(id[1..], s[1..]);
      assert id == [id[0]] + id[1..];
    }
  }

  /** `Occurs`, one ID at a time. */
  ghost predicate Fits(s: string, prefixes: seq<string>, ids: seq<string>)
    requires |ids| == |prefixes| > 0
    decreases |prefixes|
  {
    var p := prefixes[0] + "/";
    p <= s
    && var rest := s[|p|..];
    IsId(ids[0]) && ids[0] <= rest
    && if |ids| == 1 then |ids[0]| < |rest| ==> !IdChar(rest[|ids[0]|])
       else
         var q := ids[0] + "/";
         q <= rest && Fits(rest[|q|..], prefixes[1..], ids[1..])
  }

  lemma {:induction false} MatchFits(s: string, prefixes: seq<string>)
    requires prefixes != [] && MatchHere(s, prefixes).Some?
    ensures Fits(s, prefixes, MatchHere(s, prefixes).value)
    decreases |prefixes|
  {
    if |prefixes| > 1 {
      var p := prefixes[0] + "/";
      var rest := s[|p|..];
      var id := IdRun(rest);
      var q := id + "/";
      var found := MatchHere(rest[|q|..], prefixes[1..]).value;
      MatchFits(rest[|q|..], prefixes[1..]);
      var ids := [id] + found;
      assert ids[1..] == found;
    }
  }

  /** The first ID of a fitting string is the run of ID characters after the prefix. */
  lemma FirstIdIsRun(s: string, prefixes: seq<string>, ids: seq<string>)
    requires |ids| == |prefixes| > 0 && Fits(s, prefixes, ids)
    ensures IdRun(s[|prefixes[0] + "/"|..]) == ids[0]
  {
    var rest := s[|prefixes[0] + "/"|..];
    if |ids| > 1 {
      var q := ids[0] + "/";
      assert rest[|ids[0]|] == q[|ids[0]|] == '/';
    }
    IdRunIs(ids[0], rest);
  }

  lemma MatchGoesOn(s: string, prefixes: seq<string>, id: string, tail: seq<string>)
    requires |prefixes| > 1 && prefixes[0] + "/" <= s && id != ""
    requires var rest := s[|prefixes[0] + "/"|..];
             IdRun(rest) == id && id + "/" <= rest && MatchHere(rest[|id + "/"|..], prefixes[1..]) == Some(tail)
    ensures MatchHere(s, prefixes) == Some([id] + tail)
  {
  }

  lemma MatchGoesOnWith(s: string, prefixes: seq<string>, ids: seq<string>)
    requires |prefixes| > 1 && |ids| > 1 && prefixes[0] + "/" <= s && ids[0] != ""
    requires var rest := s[|prefixes[0] + "/"|..];
             IdRun(rest) == ids[0] && ids[0] + "/" <= rest
             && MatchHere(rest[|ids[0] + "/"|..], prefixes[1..]) == Some(ids[1..])
    ensures MatchHere(s, prefixes) == Some(ids)
  {
    MatchGoesOn(s, prefixes, ids[0], ids[1..]);
    assert ids == [ids[0]] + ids[1..];
  }

  lemma FitsGoesOn(s: string, prefixes: seq<string>, ids: seq<string>)
    requires |ids| == |prefixes| > 1 && Fits(s, prefixes, ids)
    ensures prefixes[0] + "/" <= s && ids[0] != ""
    ensures var rest := s[|prefixes[0] + "/"|..];
            ids[0] + "/" <= rest && Fits(rest[|ids[0] + "/"|..], prefixes[1..], ids[1..])
  {
  }

  lemma FitsLast(s: string, prefixes: seq<string>, ids: seq<string>)
    requires |ids| == |prefixes| == 1 && Fits(s, prefixes, ids)
    ensures MatchHere(s, prefixes) == Some(ids)
  {
    FirstIdIsRun(s, prefixes, ids);
    assert ids == [ids[0]];
  }

  lemma {:induction false} FitsMatch(s: string, prefixes: seq<string>, ids: seq<string>)
    requires |ids| == |prefixes| > 0 && Fits(s, prefixes, ids)
    ensures MatchHere(s, prefixes) == Some(ids)
    decreases |prefixes|
  {
    if |ids| == 1 {
      FitsLast(s, prefixes, ids);
    } else {
      FirstIdIsRun(s, prefixes, ids);
      FitsGoesOn(s, prefixes, ids);
      var rest := s[|prefixes[0] + "/"|..];
      FitsMatch(rest[|ids[0] + "/"|..], prefixes[1..], ids[1..]);
      MatchGoesOnWith(s, prefixes, ids);
    }
  }

  lemma SplitPrefix(a: string, b: string, s: string)
    ensures a + b <= s <==> a <= s && b <= s[|a|..]
  {
    if a <= s && b <= s[|a|..] {
      assert s == a + s[|a|..];
    }
    if a + b <= s {
      assert s[..|a|] == a && s[|a|..][..|b|] == b;
    }
  }

  lemma {:induction false} FitsIffPrinted(s: string, prefixes: seq<string>, ids: seq<string>)
    requires |ids| == |prefixes| > 0
    ensures Fits(s, prefixes, ids) <==> Occurs(s, prefixes, ids)
    decreases |prefixes|
  {
    var p := prefixes[0] + "/";
    if |ids| == 1 {
      assert Print(prefixes, ids) == p + ids[0];
      SplitPrefix(p, ids[0], s);
    } else {
      var q := ids[0] + "/";
      var tail := Print(prefixes[1..], ids[1..]);
      assert Print(prefixes, ids) == p + (q + tail);
      SplitPrefix(p, q + tail, s);
      assert Ids(ids) <==> IsId(ids[0]) && Ids(ids[1..]) by {
        assert forall i :: 0 < i < |ids| ==> ids[i] == ids[1..][i - 1];
      }
      if p <= s {
        SplitPrefix(q, tail, s[|p|..]);
        if q <= s[|p|..] {
          FitsIffPrinted(s[|p|..][|q|..], prefixes[1..], ids[1..]);
        }
      }
    }
  }

  /** The matcher finds IDs exactly when they occur. */
  lemma MatchIffOccurs(s: string, prefixes: seq<string>, ids: seq<string>)
    requires prefixes != []
    ensures MatchHere(s, prefixes) == Some(ids) <==> Occurs(s, prefixes, ids)
  {
    if |ids| == |prefixes| {
      FitsIffPrinted(s, prefixes, ids);
      if Fits(s, prefixes, ids) {
        FitsMatch(s, prefixes, ids);
      }
      if MatchHere(s, prefixes) == Some(ids) {
        MatchFits(s, prefixes);
      }
    }
  }

  /** Parsing succeeds with `ids` exactly when they occur at some position and nothing occurs
      at an earlier one. */
  lemma {:induction false} SearchIff(s: string, prefixes: seq<string>, ids: seq<string>)
    requires prefixes != []
    ensures Search(s, prefixes) == Some(ids) <==>
            exists k :: 0 <= k <= |s| && Occurs(s[k..], prefixes, ids)
                        && forall j, other :: 0 <= j < k ==> !Occurs(s[j..], prefixes, other)
    decreases |s|
  {
    assert s[0..] == s;
    var here := MatchHere(s, prefixes);
    MatchIffOccurs(s, prefixes, ids);
    if here.Some? {
      MatchIffOccurs(s, prefixes, here.value);
      assert Occurs(s[0..], prefixes, here.value);
    } else if s != "" {
      SearchIff(s[1..], prefixes, ids);
      assert forall k :: 0 <= k <= |s| - 1 ==> s[1..][k..] == s[k + 1..];
      forall other ensures !Occurs(s[0..], prefixes, other) {
        MatchIffOccurs(s, prefixes, other);
      }
      LaterMatch(s, prefixes, ids);
    }
  }

  lemma LaterMatch(s: string, prefixes: seq<string>, ids: seq<string>)
    requires s != ""
    requires forall other :: !Occurs(s, prefixes, other)
    ensures (exists k :: 0 <= k <= |s| && Occurs(s[k..], prefixes, ids)
                         && forall j, other :: 0 <= j < k ==> !Occurs(s[j..], prefixes, other))
        <==> (exists k :: 0 <= k <= |s[1..]| && Occurs(s[1..][k..], prefixes, ids)
                          && forall j, other :: 0 <= j < k ==> !Occurs(s[1..][j..], prefixes, other))
  {
    assert s[0..] == s;
    var t := s[1..];
    assert forall k :: 0 <= k <= |t| ==> t[k..] == s[k + 1..];
    if k :| 0 <= k <= |s| && Occurs(s[k..], prefixes, ids)
            && forall j, other :: 0 <= j < k ==> !Occurs(s[j..], prefixes, other) {
      assert k > 0;
      assert t[k - 1..] == s[k..];
      forall j, other | 0 <= j < k - 1 ensures !Occurs(t[j..], prefixes, other) {
        assert t[j..] == s[j + 1..];
      }
      assert Occurs(t[k - 1..], prefixes, ids);
    }
    if k :| 0 <= k <= |t| && Occurs(t[k..], prefixes, ids)
            && forall j, other :: 0 <= j < k ==> !Occurs(t[j..], prefixes, other) {
      forall j, other | 0 <= j < k + 1 ensures !Occurs(s[j..], prefixes, other) {
        if j > 0 {
          assert t[j - 1..] == s[j..];
        }
      }
      assert Occurs(s[k + 1..], prefixes, ids);
    }
  }

  /** Round trip: parsing a printed name, whatever follows it, gives back exactly the IDs it
      was printed from. */
  lemma ParsePrint(prefixes: seq<string>, ids: seq<string>, more: string)
    requires |prefixes| == |ids| > 0 && Literals(prefixes) && Ids(ids)
    requires more == "" || !IdChar(more[0])
    ensures ParseResourceName(Print(prefixes, ids) + more, prefixes) == Ok(ids)
  {
    MatchIffOccurs(Print(prefixes, ids) + more, prefixes, ids);
  }

  /** Conversely, printing whatever was parsed gives a contiguous piece of the name, and no
      parsed ID is empty. */
  lemma PrintParse(name: string, prefixes: seq<string>)
    requires Literals(prefixes) && ParseResourceName(name, prefixes).Ok?
    ensures var ids := ParseResourceName(name, prefixes).value;
            && |ids| == |prefixes| && Ids(ids)
            && exists k :: 0 <= k <= |name| && Print(prefixes, ids) <= name[k..]
  {
    var ids := ParseResourceName(name, prefixes).value;
    SearchIff(name, prefixes, ids);
    var k :| 0 <= k <= |name| && Occurs(name[k..], prefixes, ids);
    assert Print(prefixes, ids) <= name[k..];
  }

  // ---------- Reading a name segment by segment ----------

  predicate SlashFree(s: string) {
    '/' !in s
  }

  predicate EndsWith(s: string, suffix: string) {
    |suffix| <= |s| && s[|s| - |suffix|..] == suffix
  }

  /** Up to its first slash a string is determined. */
  lemma {:induction false} FirstSegment(a: string, r: string, b: string)
    requires SlashFree(a) && SlashFree(b)
    ensures b + "/" <= a + "/" + r <==> a == b
  {
    var s := a + "/" + r;
    if b + "/" <= s {
      assert (b + "/")[|b|] == '/' == s[|b|] && s[|a|] == '/';
      assert forall j :: 0 <= j < |a| ==> s[j] == a[j] != '/';
      assert forall j :: 0 <= j < |b| ==> s[j] == (b + "/")[j] == b[j] != '/';
    }
  }

  lemma MatchStartsWithPrefix(a: string, r: string, prefixes: seq<string>)
    requires prefixes != [] && SlashFree(prefixes[0]) && SlashFree(a)
    requires MatchHere(a + "/" + r, prefixes).Some?
    ensures a == prefixes[0]
  {
    FirstSegment(a, r, prefixes[0]);
  }

  /** A search passes over the first segment, unless the pattern starts at the end of it. */
  lemma {:induction false} SearchSegment(a: string, r: string, prefixes: seq<string>)
    requires prefixes != [] && SlashFree(prefixes[0]) && SlashFree(a)
    ensures var here := MatchHere(prefixes[0] + "/" + r, prefixes);
            Search(a + "/" + r, prefixes) ==
            if EndsWith(a, prefixes[0]) && here.Some? then here else Search(r, prefixes)
    decreases |a|
  {
    var s := a + "/" + r;
    if MatchHere(s, prefixes).Some? {
      MatchStartsWithPrefix(a, r, prefixes);
    } else if a == "" {
      assert s[1..] == r;
    } else {
      assert s[1..] == a[1..] + "/" + r;
      SearchSegment(a[1..], r, prefixes);
      assert a != prefixes[0] ==> (EndsWith(a, prefixes[0]) <==> EndsWith(a[1..], prefixes[0]));
    }
  }

  lemma {:induction false} NoMatchWithoutSlash(s: string, prefixes: seq<string>)
    requires prefixes != [] && SlashFree(s)
    ensures Search(s, prefixes) == None && MatchHere(s, prefixes) == None
    decreases |s|
  {
    NoSlashNoPrefix(s, prefixes[0]);
    if s != "" {
      NoMatchWithoutSlash(s[1..], prefixes);
    }
  }

  lemma NoSlashNoPrefix(s: string, prefix: string)
    requires SlashFree(s)
    ensures !(prefix + "/" <= s)
  {
    assert (prefix + "/")[|prefix|] == '/';
  }

  /** After a prefix, the next segment has to be an ID and the rest has to match. */
  lemma MatchSegment(id: string, r: string, prefixes: seq<string>)
    requires |prefixes| > 1 && SlashFree(id)
    ensures MatchHere(prefixes[0] + "/" + (id + "/" + r), prefixes) ==
            if IsId(id) && MatchHere(r, prefixes[1..]).Some?
            then Some([id] + MatchHere(r, prefixes[1..]).value) else None
  {
    var p := prefixes[0] + "/";
    var rest := id + "/" + r;
    assert (p + rest)[|p|..] == rest;
    var run := IdRun(rest);
    if AllIdChars(id) {
      assert rest[|id|] == '/';
      IdRunIs(id, rest);
      assert rest[|id + "/"|..] == r;
    } else {
      IdsHaveNoSlash(run);
      FirstSegment(id, r, run);
    }
  }

  lemma IdsHaveNoSlash(s: string)
    requires AllIdChars(s)
    ensures SlashFree(s)
  {
    assert !IdChar('/');
  }

  /** The ID after a prefix at the start of `s`, or nothing. */
  function IdAfter(prefix: string, s: string): (r: string) {
    if prefix + "/" <= s then IdRun(s[|prefix| + 1..]) else ""
  }

  lemma MatchOne(prefix: string, s: string)
    ensures MatchHere(s, [prefix]) == Single(IdAfter(prefix, s))
  {
  }

  /** The single ID a one-part pattern captures. */
  function Single(id: string): Option<seq<string>> {
    if id == "" then None else Some([id])
  }

  lemma MatchLast(prefix: string, r: string)
    ensures MatchHere(prefix + "/" + r, [prefix]) == Single(IdRun(r))
  {
    MatchOne(prefix, prefix + "/" + r);
    assert (prefix + "/" + r)[|prefix| + 1..] == r;
  }

  // ---------- Names as lists of segments ----------

  /** The part of a name before its first slash. */
  function Head(s: string): (r: string)
    ensures r <= s && SlashFree(r)
    ensures if SlashFree(s) then r == s else |r| < |s| && s[|r|] == '/'
  {
    if s == "" || s[0] == '/' then "" else [s[0]] + Head(s[1..])
  }

  /** The part after it. */
  function Tail(s: string): (r: string)
    requires !SlashFree(s)
    ensures s == Head(s) + "/" + r
  {
    s[|Head(s)| + 1..]
  }

  function Segments(s: string): (r: seq<string>)
    ensures r != []
    decreases |s|
  {
    if SlashFree(s) then [s] else [Head(s)] + Segments(Tail(s))
  }

  lemma HeadIs(a: string, b: string)
    requires SlashFree(a)
    ensures Head(a + "/" + b) == a && Tail(a + "/" + b) == b && !SlashFree(a + "/" + b)
  {
    var s := a + "/" + b;
    assert s[|a|] == '/';
    FirstSegment(a, b, Head(s));
    assert s == Head(s) + "/" + Tail(s);
  }

  lemma {:induction false} SegmentsJoin(a: string, b: string)
    ensures Segments(a + "/" + b) == Segments(a) + Segments(b)
    decreases |a|
  {
    if SlashFree(a) {
      HeadIs(a, b);
    } else {
      var rest := Tail(a) + "/" + b;
      assert a + "/" + b == Head(a) + "/" + rest;
      HeadIs(Head(a), rest);
      SegmentsJoin(Tail(a), b);
    }
  }

  /** The IDs a pattern captures from the segments that follow its first prefix: whole segments
      that are IDs between the further prefixes, and last the ID characters a segment starts
      with. */
  function TakeParts(segments: seq<string>, prefixes: seq<string>): (r: Option<seq<string>>)
    requires prefixes != []
    ensures r.Some? ==> |r.value| == |prefixes|
    decreases |prefixes|
  {
    if segments == [] then None
    else if |prefixes| == 1 then Single(IdRun(segments[0]))
    else if IsId(segments[0]) && |segments| > 1 && segments[1] == prefixes[1] then
      match TakeParts(segments[2..], prefixes[1..])
      case None => None
      case Some(ids) => Some([segments[0]] + ids)
    else None
  }

  /** The first segment that ends with the first prefix and is followed by such parts. */
  function FindParts(segments: seq<string>, prefixes: seq<string>): (r: Option<seq<string>>)
    requires prefixes != []
    ensures r.Some? ==> |r.value| == |prefixes|
  {
    if segments == [] then None
    else
      var here := TakeParts(segments[1..], prefixes);
      if EndsWith(segments[0], prefixes[0]) && here.Some? then here else FindParts(segments[1..], prefixes)
  }

  predicate SlashFreePrefixes(prefixes: seq<string>) {
    prefixes != [] && forall i :: 0 <= i < |prefixes| ==> SlashFree(prefixes[i])
  }

  lemma RunEndsAtSlash(s: string)
    ensures IdRun(s) == IdRun(Head(s))
  {
    var r := IdRun(Head(s));
    assert |r| < |s| ==> !IdChar(s[|r|]);
    IdRunIs(r, s);
  }

  lemma MatchOneOfSegments(r: string, prefix: string)
    ensures MatchHere(prefix + "/" + r, [prefix]) == Single(IdRun(Segments(r)[0]))
  {
    MatchLast(prefix, r);
    RunEndsAtSlash(r);
  }

  /** One step of a match, on strings and on segments. */
  lemma MatchNeedsSlash(r: string, prefixes: seq<string>)
    requires |prefixes| > 1 && SlashFree(r)
    ensures MatchHere(prefixes[0] + "/" + r, prefixes) == None
  {
    var p := prefixes[0] + "/";
    assert (p + r)[|p|..] == r;
    NoSlashNoPrefix(r, IdRun(r));
  }

  lemma MatchRest(r: string, prefixes: seq<string>)
    requires prefixes != [] && SlashFree(prefixes[0]) && MatchHere(r, prefixes).Some?
    ensures !SlashFree(r) && Head(r) == prefixes[0]
  {
    if SlashFree(r) {
      NoMatchWithoutSlash(r, prefixes);
    } else {
      MatchStartsWithPrefix(Head(r), Tail(r), prefixes);
    }
  }

  lemma {:induction false} MatchParts(r: string, prefixes: seq<string>)
    requires SlashFreePrefixes(prefixes)
    ensures MatchHere(prefixes[0] + "/" + r, prefixes) == TakeParts(Segments(r), prefixes)
    decreases |prefixes|
  {
    if |prefixes| == 1 {
      assert prefixes == [prefixes[0]];
      MatchOneOfSegments(r, prefixes[0]);
    } else if SlashFree(r) {
      MatchNeedsSlash(r, prefixes);
    } else {
      MatchSegment(Head(r), Tail(r), prefixes);
      RestOfParts(Tail(r), prefixes);
      if !SlashFree(Tail(r)) && Head(Tail(r)) == prefixes[1] {
        MatchParts(Tail(Tail(r)), prefixes[1..]);
      }
      PartsStep(r, prefixes);
    }
  }

  lemma RestOfParts(r: string, prefixes: seq<string>)
    requires |prefixes| > 1 && SlashFreePrefixes(prefixes)
    ensures MatchHere(r, prefixes[1..]).Some? ==> !SlashFree(r) && Head(r) == prefixes[1]
    ensures !SlashFree(r) && Head(r) == prefixes[1] ==> r == prefixes[1..][0] + "/" + Tail(r)
  {
    if MatchHere(r, prefixes[1..]).Some? {
      MatchRest(r, prefixes[1..]);
    }
  }

  lemma SegmentsSplit(s: string)
    ensures Segments(s)[0] == Head(s)
    ensures Segments(s)[1..] == if SlashFree(s) then [] else Segments(Tail(s))
  {
  }

  lemma TakePartsStep(id: string, rest: seq<string>, prefixes: seq<string>)
    requires |prefixes| > 1 && rest != []
    ensures TakeParts([id] + rest, prefixes) ==
            if !IsId(id) || rest[0] != prefixes[1] then None
            else
              var ids := TakeParts(rest[1..], prefixes[1..]);
              if ids.None? then None else Some([id] + ids.value)
  {
    assert ([id] + rest)[2..] == rest[1..];
  }

  lemma PartsStep(r: string, prefixes: seq<string>)
    requires |prefixes| > 1 && !SlashFree(r)
    ensures var next := Tail(r);
            TakeParts(Segments(r), prefixes) ==
            if !IsId(Head(r)) || Head(next) != prefixes[1] || SlashFree(next) then None
            else
              var ids := TakeParts(Segments(Tail(next)), prefixes[1..]);
              if ids.None? then None else Some([Head(r)] + ids.value)
  {
    TakePartsStep(Head(r), Segments(Tail(r)), prefixes);
    SegmentsSplit(Tail(r));
  }

  /** What a pattern finds in any name at all, in terms of its segments. */
  lemma {:induction false} SearchParts(s: string, prefixes: seq<string>)
    requires SlashFreePrefixes(prefixes)
    ensures Search(s, prefixes) == FindParts(Segments(s), prefixes)
    decreases |s|
  {
    if SlashFree(s) {
      NoMatchWithoutSlash(s, prefixes);
      assert Segments(s)[1..] == [];
    } else {
      SearchSegment(Head(s), Tail(s), prefixes);
      MatchParts(Tail(s), prefixes);
      SearchParts(Tail(s), prefixes);
      assert Segments(s)[1..] == Segments(Tail(s));
    }
  }

  // ---------- Stream names ----------

  const ACCOUNTS_STREAMS := ["accounts", "streams"]

  const ACCOUNTS_STREAMS_VALUES := ["accounts", "streams", "values"]

  lemma LiteralPrefixes()
    ensures Literals(ACCOUNTS_STREAMS) && Literals(ACCOUNTS_STREAMS_VALUES)
  {
    assert IsLiteral("accounts") && IsLiteral("streams") && IsLiteral("values");
  }

  function StreamName(account: string, stream: string): string {
    "accounts/" + account + "/streams/" + stream
  }

  /** The parent of a stream: its account and stream IDs. */
  function ParseStreamName(name: string): (r: Result<seq<string>>)
    ensures r.Ok? ==> |r.value| == 2 && Ids(r.value)
    ensures r.Err? ==> r.status == InvalidArgument
  {
    LiteralPrefixes();
    ParseResourceName(name, ACCOUNTS_STREAMS)
  }

  /** The name of a stream value: its account, stream and entry IDs. */
  function ParseValueName(name: string): (r: Result<seq<string>>)
    ensures r.Ok? ==> |r.value| == 3 && Ids(r.value)
    ensures r.Err? ==> r.status == InvalidArgument
  {
    LiteralPrefixes();
    ParseResourceName(name, ACCOUNTS_STREAMS_VALUES)
  }

  /** Where a name that starts with a prefix, an account and a segment is matched: at its start,
      at the end of the account, or past all of that. */
  lemma SearchThreeSegments(account: string, next: string, rest: string, prefixes: seq<string>)
    requires |prefixes| > 1 && SlashFree(prefixes[0]) && SlashFree(account) && SlashFree(next)
    requires IsId(next) && !EndsWith(next, prefixes[0])
    ensures var first := MatchHere(next + "/" + rest, prefixes[1..]);
            var second := MatchHere(rest, prefixes[1..]);
            Search(prefixes[0] + "/" + (account + "/" + (next + "/" + rest)), prefixes) ==
            if IsId(account) && first.Some? then Some([account] + first.value)
            else if EndsWith(account, prefixes[0]) && second.Some? then Some([next] + second.value)
            else Search(rest, prefixes)
  {
    var tail := next + "/" + rest;
    SearchSegment(prefixes[0], account + "/" + tail, prefixes);
    MatchSegment(account, tail, prefixes);
    SearchSegment(account, tail, prefixes);
    MatchSegment(next, rest, prefixes);
    SearchSegment(next, rest, prefixes);
  }

  lemma StreamNameSegments(account: string, rest: string)
    ensures StreamName(account, rest) == "accounts" + "/" + (account + "/" + ("streams" + "/" + rest))
    ensures "streams" + "/" + rest == "streams/" + rest
    ensures SlashFree("accounts") && SlashFree("streams") && IsId("streams")
    ensures !EndsWith("streams", "accounts")
  {
    assert "streams" + "/" == "streams/" && "/" + "streams/" == "/streams/";
  }

  /** The same for stream names, with the patterns of either handler. */
  lemma SearchStreamName(account: string, rest: string, prefixes: seq<string>)
    requires |prefixes| > 1 && prefixes[0] == "accounts" && SlashFree(account)
    ensures var first := MatchHere("streams/" + rest, prefixes[1..]);
            var second := MatchHere(rest, prefixes[1..]);
            Search(StreamName(account, rest), prefixes) ==
            if IsId(account) && first.Some? then Some([account] + first.value)
            else if EndsWith(account, "accounts") && second.Some? then Some(["streams"] + second.value)
            else Search(rest, prefixes)
  {
    StreamNameSegments(account, rest);
    SearchThreeSegments(account, "streams", rest, prefixes);
  }

  /** Two-part names with any prefixes. */
  lemma SearchTwoParts(p: string, q: string, account: string, rest: string)
    requires SlashFree(p) && SlashFree(account) && SlashFree(q) && IsId(q) && !EndsWith(q, p)
    ensures Search(p + "/" + (account + "/" + (q + "/" + rest)), [p, q]) ==
            if IsId(account) && IdRun(rest) != "" then Some([account, IdRun(rest)])
            else if EndsWith(account, p) && IdAfter(q, rest) != "" then Some([q, IdAfter(q, rest)])
            else Search(rest, [p, q])
  {
    var prefixes := [p, q];
    assert prefixes[1..] == [q];
    assert MatchHere(rest, prefixes[1..]) == Single(IdAfter(q, rest)) by {
      MatchOne(q, rest);
    }
    assert MatchHere(q + "/" + rest, prefixes[1..]) == Single(IdRun(rest)) by {
      MatchLast(q, rest);
    }
    SearchThreeSegments(account, q, rest, prefixes);
    assert [account] + [IdRun(rest)] == [account, IdRun(rest)];
    assert [q] + [IdAfter(q, rest)] == [q, IdAfter(q, rest)];
  }

  function Outcome(found: Option<seq<string>>): Result<seq<string>> {
    if found.Some? then Ok(found.value) else Err(InvalidArgument)
  }

  lemma PrefixesAreSlashFree()
    ensures SlashFreePrefixes(ACCOUNTS_STREAMS) && SlashFreePrefixes(ACCOUNTS_STREAMS_VALUES)
  {
    assert SlashFree("accounts") && SlashFree("streams") && SlashFree("values");
  }

  lemma SegmentsOfStreamName(account: string, stream: string)
    ensures Segments(StreamName(account, stream)) ==
            ["accounts"] + Segments(account) + ["streams"] + Segments(stream)
  {
    StreamNameSegments(account, stream);
    SegmentsJoinFour("accounts", account, "streams", stream);
  }

  lemma SegmentsJoinFour(p: string, a: string, q: string, b: string)
    requires SlashFree(p) && SlashFree(q)
    ensures Segments(p + "/" + (a + "/" + (q + "/" + b))) == [p] + Segments(a) + [q] + Segments(b)
  {
    SegmentsCons(p, a + "/" + (q + "/" + b));
    SegmentsJoin(a, q + "/" + b);
    SegmentsCons(q, b);
    Regroup(p, Segments(a), q, Segments(b));
  }

  lemma SegmentsCons(p: string, r: string)
    requires SlashFree(p)
    ensures Segments(p + "/" + r) == [p] + Segments(r)
  {
    HeadIs(p, r);
  }

  lemma Regroup(p: string, a: seq<string>, q: string, b: seq<string>)
    ensures [p] + (a + ([q] + b)) == [p] + a + [q] + b
  {
  }

  /** Exactly which stream names ListStreamValues accepts and what it hands on, for any account
      and any stream: of the segments of the name, the first that ends with "accounts" and is
      followed by an ID, by "streams" and by a segment that starts with an ID. */
  lemma StreamNameParsesIff(account: string, stream: string)
    ensures ParseStreamName(StreamName(account, stream)) ==
            Outcome(FindParts(["accounts"] + Segments(account) + ["streams"] + Segments(stream), ACCOUNTS_STREAMS))
  {
    PrefixesAreSlashFree();
    SearchParts(StreamName(account, stream), ACCOUNTS_STREAMS);
    SegmentsOfStreamName(account, stream);
  }

  /** Exactly which names of a slash-free account and any stream ListStreamValues accepts and
      what it hands on.  An account of ID characters with a stream that starts with one is
      handed on with the stream cut at its first other character.  Otherwise the account is not
      handed on: the pattern has to occur further right. */
  lemma SlashFreeAccountParses(account: string, stream: string)
    requires SlashFree(account)
    ensures ParseStreamName(StreamName(account, stream)) ==
            if IsId(account) && IdRun(stream) != "" then Ok([account, IdRun(stream)])
            else if EndsWith(account, "accounts") && IdAfter("streams", stream) != ""
            then Ok(["streams", IdAfter("streams", stream)])
            else ParseStreamName(stream)
  {
    StreamNameSegments(account, stream);
    SearchTwoParts("accounts", "streams", account, stream);
  }

  /** The account that is checked is the owner of the key that is listed exactly when it is made
      of ID characters and the stream either starts with one or names that account again. */
  lemma CheckedIsOwnerIff(account: string, stream: string)
    requires ParseStreamName(StreamName(account, stream)).Ok?
    ensures ParseStreamName(StreamName(account, stream)).value[0] == account <==>
            && IsId(account)
            && (IdRun(stream) != ""
                || (ParseStreamName(stream).Ok? && ParseStreamName(stream).value[0] == account))
  {
    var checked := ParseStreamName(StreamName(account, stream)).value[0];
    IdsHaveNoSlash(checked);
    if SlashFree(account) {
      SlashFreeAccountParses(account, stream);
      if IdAfter("streams", stream) != "" {
        assert stream[0] == ("streams" + "/")[0] == 's';
        assert IdRun(stream) != "";
      }
    } else if AllIdChars(account) {
      IdsHaveNoSlash(account);
    }
  }

  /** The token of any account of ID characters lists every stream of every other account whose
      stream ID is a stream name of the first: of a DID as of any account that is no ID. */
  lemma InnerNameIsChecked(account: string, x: string, y: string)
    requires SlashFree(account) && !IsId(account) && IsId(x) && IsId(y)
    ensures ParseStreamName(StreamName(account, StreamName(x, y))) == Ok([x, y])
  {
    var inner := StreamName(x, y);
    SlashFreeAccountParses(account, inner);
    assert inner[0] == "accounts/"[0] == 'a' && ("streams" + "/")[0] == 's';
    assert IdAfter("streams", inner) == "";
    IdsHaveNoSlash(x);
    SlashFreeAccountParses(x, y);
    IdRunIs(y, y);
  }

  lemma DidInnerNameIsChecked()
    ensures ParseStreamName(StreamName("did:x", "accounts/a/streams/b")) == Ok(["a", "b"])
  {
    assert !IdChar("did:x"[3]);
    assert StreamName("a", "b") == "accounts/a/streams/b";
    InnerNameIsChecked("did:x", "a", "b");
  }

  /** Validation asks for accounts that are DIDs, but ':' is no ID character: whatever the
      name, no DID is ever handed on to be checked, by either handler. */
  lemma DidIsNeverChecked(account: string, name: string)
    requires "did:" <= account
    ensures ParseStreamName(name).Ok? ==> ParseStreamName(name).value[0] != account
    ensures ParseValueName(name).Ok? ==> ParseValueName(name).value[0] != account
  {
    assert account[3] == "did:"[3] == ':';
    assert !IdChar(':');
  }

  // ---------- Stream value names ----------

  /** The name CreateStreamValue answers with. */
  function ValueName(parent: string, entry: string): string {
    parent + "/values/" + entry
  }

  lemma ValueNameIsStreamName(account: string, stream: string, entry: string)
    ensures ValueName(StreamName(account, stream), entry) == StreamName(account, ValueName(stream, entry))
  {
  }

  /** What "streams/<id>/values/<id>" at the start of `s` names. */
  function StreamValueIds(s: string): Option<seq<string>> {
    MatchHere(s, ["streams", "values"])
  }

  lemma SegmentsOfValueName(parent: string, entry: string)
    ensures Segments(ValueName(parent, entry)) == Segments(parent) + ["values"] + Segments(entry)
  {
    ValueNameSegments(parent, entry);
    SegmentsJoin(parent, "values" + "/" + entry);
    SegmentsJoin("values", entry);
    assert Segments("values") == ["values"];
  }

  /** Exactly which value names GetStreamValue accepts and what it hands on, for any account, any
      stream and any entry. */
  lemma ValueNameParsesIff(account: string, stream: string, entry: string)
    ensures ParseValueName(ValueName(StreamName(account, stream), entry)) ==
            Outcome(FindParts(["accounts"] + Segments(account) + ["streams"] + Segments(stream)
                              + ["values"] + Segments(entry), ACCOUNTS_STREAMS_VALUES))
  {
    PrefixesAreSlashFree();
    var name := ValueName(StreamName(account, stream), entry);
    SearchParts(name, ACCOUNTS_STREAMS_VALUES);
    SegmentsOfValueName(StreamName(account, stream), entry);
    SegmentsOfStreamName(account, stream);
  }

  /** The same for the value names of any stream of a slash-free account: the account is handed
      on exactly if it is made of ID characters and "streams/<id>/values/<id>" follows it;
      otherwise the pattern has to occur further right. */
  lemma SlashFreeAccountValueParses(account: string, stream: string, entry: string)
    requires SlashFree(account)
    ensures var rest := ValueName(stream, entry);
            var first, second := StreamValueIds("streams/" + rest), StreamValueIds(rest);
            ParseValueName(ValueName(StreamName(account, stream), entry)) ==
            if IsId(account) && first.Some? then Ok([account] + first.value)
            else if EndsWith(account, "accounts") && second.Some? then Ok(["streams"] + second.value)
            else ParseValueName(rest)
  {
    ValueNameIsStreamName(account, stream, entry);
    SearchStreamName(account, ValueName(stream, entry), ACCOUNTS_STREAMS_VALUES);
    assert ACCOUNTS_STREAMS_VALUES[1..] == ["streams", "values"];
  }

  /** With any prefixes: in a slash-free stream with a slash-free entry ID nothing occurs
      further right. */
  lemma NoPartsInside(p: string, q: string, v: string, stream: string, entry: string)
    requires SlashFree(p) && SlashFree(q) && SlashFree(v) && !EndsWith(v, p)
    requires SlashFree(stream) && SlashFree(entry)
    ensures MatchHere(stream + "/" + (v + "/" + entry), [q, v]).None?
    ensures Search(stream + "/" + (v + "/" + entry), [p, q, v]).None?
  {
    var rest := v + "/" + entry;
    if MatchHere(stream + "/" + rest, [q, v]).Some? {
      MatchStartsWithPrefix(stream, rest, [q, v]);
      MatchSegment(v, entry, [q, v]);
      NoMatchWithoutSlash(entry, [q, v][1..]);
    }
    SearchSegment(stream, rest, [p, q, v]);
    MatchSegment(v, entry, [p, q, v]);
    NoMatchWithoutSlash(entry, [p, q, v][1..]);
    SearchSegment(v, entry, [p, q, v]);
    NoMatchWithoutSlash(entry, [p, q, v]);
  }

  lemma MatchTwoParts(q: string, v: string, stream: string, entry: string)
    requires SlashFree(stream)
    ensures MatchHere(q + "/" + (stream + "/" + (v + "/" + entry)), [q, v]) ==
            if IsId(stream) && IdRun(entry) != "" then Some([stream, IdRun(entry)]) else None
  {
    var prefixes := [q, v];
    assert prefixes[1..] == [v];
    assert MatchHere(v + "/" + entry, prefixes[1..]) == Single(IdRun(entry)) by {
      MatchLast(v, entry);
    }
    MatchSegment(stream, v + "/" + entry, prefixes);
    assert [stream] + [IdRun(entry)] == [stream, IdRun(entry)];
  }

  lemma ValueNameSegments(stream: string, entry: string)
    ensures ValueName(stream, entry) == stream + "/" + ("values" + "/" + entry)
    ensures "streams/" + ValueName(stream, entry) == "streams" + "/" + (stream + "/" + ("values" + "/" + entry))
    ensures SlashFree("values") && SlashFree("accounts") && SlashFree("streams") && !EndsWith("values", "accounts")
  {
    assert "/" + ("values" + "/") == "/values/" && "streams" + "/" == "streams/";
  }

  lemma ValueIdsOfSlashFree(stream: string, entry: string)
    requires SlashFree(stream) && IsId(entry)
    ensures StreamValueIds("streams/" + ValueName(stream, entry)) ==
            if IsId(stream) then Some([stream, entry]) else None
    ensures StreamValueIds(ValueName(stream, entry)).None?
    ensures ParseValueName(ValueName(stream, entry)).Err?
  {
    IdsHaveNoSlash(entry);
    IdRunIs(entry, entry);
    ValueNameSegments(stream, entry);
    NoPartsInside("accounts", "streams", "values", stream, entry);
    MatchTwoParts("streams", "values", stream, entry);
  }

  /** The name CreateStreamValue answers with, given to GetStreamValue: for slash-free account
      and stream it is read back to its three IDs exactly when both are made of ID characters,
      and refused otherwise. */
  lemma ValueNameRoundTrip(account: string, stream: string, entry: string)
    requires SlashFree(account) && SlashFree(stream) && IsId(entry)
    ensures ParseValueName(ValueName(StreamName(account, stream), entry)) ==
            if IsId(account) && IsId(stream) then Ok([account, stream, entry]) else Err(InvalidArgument)
  {
    SlashFreeAccountValueParses(account, stream, entry);
    ValueIdsOfSlashFree(stream, entry);
    assert [account] + [stream, entry] == [account, stream, entry];
  }

  /** Without slashes in its stream, no stream of a DID is listed and none of its values is read,
      to anyone. */
  lemma DidAccountsAreRejected(account: string, stream: string, entry: string)
    requires SlashFree(account) && SlashFree(stream) && IsId(entry)
    requires "did:" <= account
    ensures ParseStreamName(StreamName(account, stream)) == Err(InvalidArgument)
    ensures ParseValueName(ValueName(StreamName(account, stream), entry)) == Err(InvalidArgument)
  {
    assert account[3] == "did:"[3] == ':';
    assert !IdChar(':');
    SlashFreeAccountParses(account, stream);
    ValueNameRoundTrip(account, stream, entry);
    NoMatchWithoutSlash(stream, ACCOUNTS_STREAMS);
    NoSlashNoPrefix(stream, "streams");
  }

  /** GetStreamValue reads the key it rebuilds from the parsed IDs, and that key always belongs
      to the account that was checked. */
  lemma ReadKeyBelongsToChecked(name: string)
    ensures var r := ParseValueName(name);
            r.Ok? ==> ParseStreamName(StreamName(r.value[0], r.value[1])) == Ok(r.value[..2])
  {
    var r := ParseValueName(name);
    if r.Ok? {
      var ids := r.value;
      assert IsId(ids[0]) && IsId(ids[1]) && ids[..2] == [ids[0], ids[1]];
      IdsHaveNoSlash(ids[0]);
      SlashFreeAccountParses(ids[0], ids[1]);
      IdRunIs(ids[1], ids[1]);
    }
  }
}
