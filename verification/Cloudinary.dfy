/**
 Cloudinary delivery links: finding the public id behind transforms and version, and rewriting
 a catalog image's transforms.

 The digit test is a parameter, since the form tests for 0 to 9 and the backend for any Unicode
 decimal digit.
 */
module Cloudinary {
  import opened Options
  import opened Decimal

  const HOST := "https://res.cloudinary.com"
  const MARKER := "/image/upload/"

  type DigitTest = char -> bool

  predicate IsVersionSegment(segment: string, digit: DigitTest) {
    |segment| >= 2 && segment[0] == 'v' && forall i | 0 < i < |segment| :: digit(segment[i])
  }

  predicate IsTransformSegment(segment: string, digit: DigitTest) {
    !IsVersionSegment(segment, digit) && (',' in segment || '_' in segment)
  }

  predicate Skipped(segment: string, digit: DigitTest) {
    segment == "" || IsTransformSegment(segment, digit) || IsVersionSegment(segment, digit)
  }

  // ---------------------------------------------------------------------------------------
  // Splitting paths
  // ---------------------------------------------------------------------------------------

  function Slash(s: string): (k: nat)
    ensures k <= |s| && '/' !in s[..k] && (k < |s| ==> s[k] == '/')
  {
    if s == "" || s[0] == '/' then 0
    else
      var k := 1 + Slash(s[1..]);
      assert s[..k] == [s[0]] + s[1..][..k - 1];
      k
  }

  function Split(s: string): (parts: seq<string>)
    ensures parts != []
    decreases |s|
  {
    var k := Slash(s);
    if k == |s| then [s] else [s[..k]] + Split(s[k + 1..])
  }

  function Join(parts: seq<string>): string {
    if parts == [] then ""
    else if |parts| == 1 then parts[0]
    else parts[0] + "/" + Join(parts[1..])
  }

  function TrimSlashes(s: string): string
    decreases |s|
  {
    if s == "" then ""
    else if s[0] == '/' then TrimSlashes(s[1..])
    else if s[|s| - 1] == '/' then TrimSlashes(s[..|s| - 1])
    else s
  }

  lemma {:induction false} PartsAreSlashFree(s: string, i: nat)
    requires i < |Split(s)|
    ensures '/' !in Split(s)[i]
    decreases |s|
  {
    var k := Slash(s);
    if k < |s| {
      if i > 0 {
        PartsAreSlashFree(s[k + 1..], i - 1);
      }
    } else {
      assert s[..k] == s;
    }
  }

  lemma SlashAfter(head: string, rest: string)
    requires '/' !in head
    ensures Slash(head + "/" + rest) == |head|
  {
    var s := head + "/" + rest;
    assert s[|head|] == '/' && s[..|head|] == head;
  }

  lemma SplitAfter(head: string, rest: string)
    requires '/' !in head
    ensures Split(head + "/" + rest) == [head] + Split(rest)
  {
    SlashAfter(head, rest);
    assert (head + "/" + rest)[..|head|] == head;
    assert (head + "/" + rest)[|head| + 1..] == rest;
  }

  lemma {:induction false} SplitUndoesJoin(parts: seq<string>)
    requires parts != [] && forall i | 0 <= i < |parts| :: '/' !in parts[i]
    ensures Split(Join(parts)) == parts
  {
    if |parts| == 1 {
      assert Join(parts) == parts[0];
    } else {
      SplitUndoesJoin(parts[1..]);
      SplitAfter(parts[0], Join(parts[1..]));
    }
  }

  /** Dropping leading segments leaves a suffix of the text. */
  lemma {:induction false} DroppedIsSuffix(s: string, i: nat) returns (from: nat)
    requires i < |Split(s)|
    ensures from <= |s| && Join(Split(s)[i..]) == s[from..]
    decreases |s|
  {
    var k := Slash(s);
    from := 0;
    if i == 0 {
      JoinUndoesSplit(s);
      assert Split(s)[0..] == Split(s);
    } else {
      assert Split(s) == [s[..k]] + Split(s[k + 1..]);
      hide Split, Join, Slash;
      var rest := DroppedIsSuffix(s[k + 1..], i - 1);
      assert Split(s)[i..] == Split(s[k + 1..])[i - 1..];
      from := k + 1 + rest;
      assert s[k + 1..][rest..] == s[from..];
    }
  }

  lemma JoinAfter(head: string, parts: seq<string>)
    requires parts != []
    ensures Join([head] + parts) == head + "/" + Join(parts)
  {
    assert ([head] + parts)[1..] == parts;
  }

  lemma CutAt(s: string, k: nat)
    requires k < |s| && s[k] == '/'
    ensures s == s[..k] + "/" + s[k + 1..]
  {
  }

  lemma {:induction false} JoinUndoesSplit(s: string)
    ensures Join(Split(s)) == s
    decreases |s|
  {
    var k := Slash(s);
    if k < |s| {
      assert Split(s) == [s[..k]] + Split(s[k + 1..]);
      hide Split, Join, Slash;
      JoinUndoesSplit(s[k + 1..]);
      JoinAfter(s[..k], Split(s[k + 1..]));
      CutAt(s, k);
    }
  }

  lemma {:induction false} TrimmedEnds(s: string)
    ensures var t := TrimSlashes(s); t != "" ==> t[0] != '/' && t[|t| - 1] != '/'
    decreases |s|
  {
    if s != "" {
      if s[0] == '/' {
        TrimmedEnds(s[1..]);
      } else if s[|s| - 1] == '/' {
        TrimmedEnds(s[..|s| - 1]);
      }
    }
  }

  // ---------------------------------------------------------------------------------------
  // The public id
  // ---------------------------------------------------------------------------------------

  /** The first segment from `start` on that belongs to the public id. */
  function SkipFrom(segments: seq<string>, start: nat, digit: DigitTest): (k: nat)
    requires start <= |segments|
    ensures start <= k <= |segments|
    ensures forall i | start <= i < k :: Skipped(segments[i], digit)
    ensures k < |segments| ==> !Skipped(segments[k], digit)
    decreases |segments| - start
  {
    if start < |segments| && Skipped(segments[start], digit) then SkipFrom(segments, start + 1, digit)
    else start
  }

  function PublicIdPath(afterUpload: string, digit: DigitTest): string {
    var segments := Split(TrimSlashes(afterUpload));
    Join(segments[SkipFrom(segments, 0, digit)..])
  }

  method CloudinaryPublicIdPath(afterUpload: string, digit: DigitTest) returns (path: string)
    ensures path == PublicIdPath(afterUpload, digit)
  {
    var segments := Split(TrimSlashes(afterUpload));
    var start := 0;
    while start < |segments|
      invariant 0 <= start <= |segments|
      invariant SkipFrom(segments, 0, digit) == SkipFrom(segments, start, digit)
    {
      var segment := segments[start];
      if segment == "" {
        start := start + 1;
        continue;
      }
      if IsTransformSegment(segment, digit) || IsVersionSegment(segment, digit) {
        start := start + 1;
        continue;
      }
      break;
    }
    return Join(segments[start..]);
  }

  /** A public id found behind transforms is found again behind any other transform. */
  lemma PublicIdIsStable(afterUpload: string, transform: string, digit: DigitTest)
    requires PublicIdPath(afterUpload, digit) != ""
    requires '/' !in transform && IsTransformSegment(transform, digit)
    ensures PublicIdPath(transform + "/" + PublicIdPath(afterUpload, digit), digit)
            == PublicIdPath(afterUpload, digit)
  {
    var text, id := TrimSlashes(afterUpload), PublicIdPath(afterUpload, digit);
    var segments := Split(text);
    var k := SkipFrom(segments, 0, digit);
    var kept := segments[k..];
    assert id == Join(kept);
    TrimmedEnds(afterUpload);
    var from := DroppedIsSuffix(text, k);
    assert id[|id| - 1] == text[from..][|id| - 1] == text[|text| - 1];
    forall i | 0 <= i < |kept| ensures '/' !in kept[i] {
      PartsAreSlashFree(text, k + i);
    }
    SplitUndoesJoin(kept);
    PublicIdAfter(transform, kept, digit);
  }

  /** Behind one skipped segment the loop stops at the first segment it keeps. */
  lemma PublicIdAfter(transform: string, kept: seq<string>, digit: DigitTest)
    requires '/' !in transform && IsTransformSegment(transform, digit)
    requires kept != [] && !Skipped(kept[0], digit) && Split(Join(kept)) == kept
    requires Join(kept) != "" && Join(kept)[|Join(kept)| - 1] != '/'
    ensures PublicIdPath(transform + "/" + Join(kept), digit) == Join(kept)
  {
    hide Split, Join, Slash, IsTransformSegment, IsVersionSegment;
    var again, parts := transform + "/" + Join(kept), [transform] + kept;
    SplitAfter(transform, Join(kept));
    assert transform != "" by {
      TransformIsNotEmpty(transform, digit);
    }
    assert again[0] == transform[0] && again[|again| - 1] == Join(kept)[|Join(kept)| - 1];
    assert TrimSlashes(again) == again;
    assert Split(again) == parts && Skipped(parts[0], digit) && !Skipped(parts[1], digit);
    assert SkipFrom(parts, 0, digit) == SkipFrom(parts, 1, digit) == 1;
    assert parts[1..] == kept;
  }

  lemma TransformIsNotEmpty(segment: string, digit: DigitTest)
    requires IsTransformSegment(segment, digit)
    ensures segment != ""
  {
  }

  // ---------------------------------------------------------------------------------------
  // The two digit tests
  // ---------------------------------------------------------------------------------------

  /** A segment without transform punctuation that is a version to exactly one of the tests. */
  predicate VersionToOne(segment: string, a: DigitTest, b: DigitTest) {
    ',' !in segment && '_' !in segment && IsVersionSegment(segment, a) != IsVersionSegment(segment, b)
  }

  /** Segment `i` is such a segment and both tests skip everything before it. */
  predicate PartsAt(segments: seq<string>, i: nat, a: DigitTest, b: DigitTest)
    requires i < |segments|
  {
    && VersionToOne(segments[i], a, b)
    && forall j | 0 <= j < i :: Skipped(segments[j], a) && Skipped(segments[j], b)
  }

  predicate Parted(segments: seq<string>, a: DigitTest, b: DigitTest) {
    exists i | 0 <= i < |segments| :: PartsAt(segments, i, a, b)
  }

  /** Keeping one more segment keeps strictly more text, unless nothing is kept. */
  lemma {:induction false} KeepingMoreIsLonger(segments: seq<string>, i: nat, j: nat)
    requires i < j <= |segments| && segments[i] != ""
    ensures |Join(segments[i..])| > |Join(segments[j..])|
    decreases j
  {
    if j == i + 1 {
      assert segments[i..][1..] == segments[j..];
    } else {
      KeepingMore(segments, i + 1, j);
      assert segments[i..][1..] == segments[i + 1..];
    }
  }

  lemma {:induction false} KeepingMore(segments: seq<string>, i: nat, j: nat)
    requires i <= j <= |segments|
    ensures |Join(segments[i..])| >= |Join(segments[j..])|
    decreases j - i
  {
    if i < j {
      KeepingMore(segments, i + 1, j);
      assert segments[i..][1..] == segments[i + 1..];
    }
  }

  /** Front end and backend start the public id at the same segment exactly when none parts them. */
  lemma SkipsPartExactly(segments: seq<string>, a: DigitTest, b: DigitTest)
    ensures SkipFrom(segments, 0, a) != SkipFrom(segments, 0, b) <==> Parted(segments, a, b)
  {
    var ka, kb := SkipFrom(segments, 0, a), SkipFrom(segments, 0, b);
    if ka < kb {
      assert PartsAt(segments, ka, a, b);
    } else if kb < ka {
      assert PartsAt(segments, kb, a, b);
    } else if ka < |segments| {
      assert !Skipped(segments[ka], a) && !Skipped(segments[ka], b);
    }
  }

  /**
   The two digit tests find different public ids if and only if some segment is a version to one
   of them only and both skip every segment before it.
   */
  lemma DigitTestsPartExactly(afterUpload: string, a: DigitTest, b: DigitTest)
    ensures PublicIdPath(afterUpload, a) != PublicIdPath(afterUpload, b)
       <==> Parted(Split(TrimSlashes(afterUpload)), a, b)
  {
    var segments := Split(TrimSlashes(afterUpload));
    var ka, kb := SkipFrom(segments, 0, a), SkipFrom(segments, 0, b);
    SkipsPartExactly(segments, a, b);
    assert PublicIdPath(afterUpload, a) == Join(segments[ka..]);
    assert PublicIdPath(afterUpload, b) == Join(segments[kb..]);
    if ka < kb {
      KeepingMoreIsLonger(segments, ka, kb);
    } else if kb < ka {
      KeepingMoreIsLonger(segments, kb, ka);
    }
  }

  /** In particular they find one public id in text on whose characters they agree. */
  lemma DigitTestsAgree(afterUpload: string, a: DigitTest, b: DigitTest)
    requires forall i | 0 <= i < |afterUpload| :: a(afterUpload[i]) == b(afterUpload[i])
    ensures PublicIdPath(afterUpload, a) == PublicIdPath(afterUpload, b)
  {
    var segments := Split(TrimSlashes(afterUpload));
    TrimmedWithin(afterUpload);
    forall i | 0 <= i < |segments| ensures !PartsAt(segments, i, a, b) {
      SegmentWithin(TrimSlashes(afterUpload), i);
      assert forall j | 0 <= j < |segments[i]| :: segments[i][j] in afterUpload;
    }
    DigitTestsPartExactly(afterUpload, a, b);
  }

  lemma {:induction false} TrimmedWithin(s: string)
    ensures forall c | c in TrimSlashes(s) :: c in s
    decreases |s|
  {
    if s != "" {
      TrimmedWithin(s[1..]);
      TrimmedWithin(s[..|s| - 1]);
    }
  }

  lemma {:induction false} SegmentWithin(s: string, i: nat)
    requires i < |Split(s)|
    ensures forall c | c in Split(s)[i] :: c in s
    decreases |s|
  {
    var k := Slash(s);
    if k < |s| && i > 0 {
      SegmentWithin(s[k + 1..], i - 1);
    }
  }

  /** A digit only one test knows moves the public id. */
  lemma ForeignDigitSplitsThem(c: char, a: DigitTest, b: DigitTest)
    requires a(c) && !b(c) && c != '/' && c != ',' && c != '_'
    ensures PublicIdPath("v" + [c] + "/cake", a) == "cake"
    ensures PublicIdPath("v" + [c] + "/cake", b) == "v" + [c] + "/cake"
  {
    hide Split, Slash;
    var head, s := "v" + [c], "v" + [c] + "/cake";
    assert s == head + "/" + "cake" && s[0] == 'v' && s[|s| - 1] == 'e';
    SplitAfter(head, "cake");
    SplitUndoesJoin(["cake"]);
    assert Split(s) == [head, "cake"];
    assert [head, "cake"][1..] == ["cake"] && [head, "cake"][0..] == [head, "cake"];
    assert IsVersionSegment(head, a) && !IsVersionSegment("cake", a);
    assert head[1] == c && !IsVersionSegment(head, b);
  }

  // ---------------------------------------------------------------------------------------
  // Rewriting
  // ---------------------------------------------------------------------------------------

  predicate OccursAt(s: string, t: string, i: int) {
    0 <= i && i + |t| <= |s| && s[i..i + |t|] == t
  }

  function IndexFrom(s: string, t: string, start: nat): (i: int)
    requires start <= |s|
    ensures i == -1 || (start <= i && OccursAt(s, t, i))
    ensures i == -1 ==> forall j | start <= j <= |s| :: !OccursAt(s, t, j)
    ensures i != -1 ==> forall j | start <= j < i :: !OccursAt(s, t, j)
    decreases |s| - start
  {
    if OccursAt(s, t, start) then start
    else if start == |s| then -1
    else IndexFrom(s, t, start + 1)
  }

  function IndexOf(s: string, t: string): int {
    IndexFrom(s, t, 0)
  }

  function PathLength(rest: string): (k: nat)
    ensures k <= |rest| && forall i | 0 <= i < k :: rest[i] != '?' && rest[i] != '#'
    ensures k < |rest| ==> rest[k] == '?' || rest[k] == '#'
  {
    if rest == "" || rest[0] == '?' || rest[0] == '#' then 0 else 1 + PathLength(rest[1..])
  }

  function PathOf(rest: string): string {
    rest[..PathLength(rest)]
  }

  /** An HTTPS link to the delivery host whose path has something after the marker. */
  predicate IsDeliveryPattern(url: string) {
    && HOST <= url
    && var rest := url[|HOST|..];
       var path := PathOf(rest);
    && (rest != "" ==> rest[0] == '/' || rest[0] == '?' || rest[0] == '#')
    && IndexOf(path, MARKER) != -1
    && |path| > IndexOf(path, MARKER) + |MARKER|
  }

  function Transform(width: nat): string {
    "f_auto,q_auto,w_" + Print(width)
  }

  function CatalogImageUrl(url: Option<string>, width: nat): Option<string> {
    if url.None? || url.value == "" then None
    else if !IsDeliveryPattern(url.value) then url
    else
      var index := IndexOf(url.value, MARKER);
      if index == -1 then url
      else
        var prefix := url.value[..index + |MARKER|];
        var publicIdPath := PublicIdPath(url.value[index + |MARKER|..], IsDigit);
        if publicIdPath == "" then url
        else Some(prefix + Transform(width) + "/" + publicIdPath)
  }

  lemma FirstIsIndex(s: string, t: string, i: nat)
    requires OccursAt(s, t, i) && forall j | 0 <= j < i :: !OccursAt(s, t, j)
    ensures IndexOf(s, t) == i
  {
  }

  /** Text cut after its first marker keeps that first marker, whatever follows. */
  lemma MarkerStays(s: string, t: string, more: string)
    requires IndexOf(s, t) != -1
    ensures IndexOf(s[..IndexOf(s, t) + |t|] + more, t) == IndexOf(s, t)
  {
    var i := IndexOf(s, t);
    var s' := s[..i + |t|] + more;
    assert s'[i..i + |t|] == s[i..i + |t|];
    forall j | 0 <= j < i ensures !OccursAt(s', t, j) {
      assert s'[j..j + |t|] == s[j..j + |t|];
      assert !OccursAt(s, t, j);
    }
    FirstIsIndex(s', t, i);
  }

  lemma NoMarkerInHost(url: string, i: nat)
    requires HOST <= url && i < |HOST|
    ensures !OccursAt(url, MARKER, i)
  {
    assert |HOST| == 26 && |MARKER| == 14 && MARKER[0] == '/' && MARKER[1] == 'i';
    assert url[i] == HOST[i] && (i < 25 ==> url[i + 1] == HOST[i + 1]);
    assert HOST[i] == '/' ==> i == 6 || i == 7;
  }

  lemma {:induction false} PathExtends(a: string, b: string)
    requires forall i | 0 <= i < |a| :: a[i] != '?' && a[i] != '#'
    ensures PathOf(a + b) == a + PathOf(b)
  {
    if a == "" {
      assert a + b == b;
    } else {
      assert (a + b)[1..] == a[1..] + b;
      PathExtends(a[1..], b);
      assert PathLength(a + b) == 1 + PathLength(a[1..] + b);
    }
  }

  lemma OccursWithin(head: string, path: string, tail: string, t: string, i: nat)
    requires i + |t| <= |path|
    ensures OccursAt(head + path + tail, t, |head| + i) <==> OccursAt(path, t, i)
  {
    var all := head + path + tail;
    assert all[|head| + i..|head| + i + |t|] == path[i..i + |t|];
  }

  /** Text before with no occurrence in it only shifts the first occurrence. */
  lemma IndexShifts(head: string, path: string, tail: string, t: string)
    requires IndexOf(path, t) != -1
    requires forall i | 0 <= i < |head| :: !OccursAt(head + path + tail, t, i)
    ensures IndexOf(head + path + tail, t) == |head| + IndexOf(path, t)
  {
    var j := IndexOf(path, t);
    OccursWithin(head, path, tail, t, j);
    forall i | 0 <= i < |head| + j ensures !OccursAt(head + path + tail, t, i) {
      if i >= |head| {
        OccursWithin(head, path, tail, t, i - |head|);
        assert !OccursAt(path, t, i - |head|);
      }
    }
    FirstIsIndex(head + path + tail, t, |head| + j);
  }

  /** In a delivery link the first marker of the whole link is the first of its path. */
  lemma MarkerIsInPath(url: string)
    requires IsDeliveryPattern(url)
    ensures IndexOf(url, MARKER) == |HOST| + IndexOf(PathOf(url[|HOST|..]), MARKER)
  {
    hide IndexOf, OccursAt;
    var rest := url[|HOST|..];
    var tail := rest[PathLength(rest)..];
    assert rest == PathOf(rest) + tail;
    assert url == HOST + PathOf(rest) + tail;
    forall i | 0 <= i < |HOST| ensures !OccursAt(url, MARKER, i) {
      NoMarkerInHost(url, i);
    }
    IndexShifts(HOST, PathOf(rest), tail, MARKER);
  }

  lemma RewrittenIsDelivery(url: string, more: string)
    requires IsDeliveryPattern(url) && more != "" && more[0] != '?' && more[0] != '#'
    ensures IsDeliveryPattern(url[..IndexOf(url, MARKER) + |MARKER|] + more)
  {
    hide IndexFrom, OccursAt, PathLength;
    MarkerIsInPath(url);
    var path := PathOf(url[|HOST|..]);
    var j := IndexOf(path, MARKER);
    var kept := path[..j + |MARKER|];
    var url' := url[..|HOST| + j + |MARKER|] + more;
    assert path == url[|HOST|..|HOST| + |path|];
    assert url[..|HOST| + j + |MARKER|] == HOST + kept;
    assert url' == HOST + (kept + more) && url'[|HOST|..] == kept + more;
    PathExtends(kept, more);
    MarkerStays(path, MARKER, PathOf(more));
    assert url'[|HOST|] == url[|HOST|..][0];
  }

  lemma TransformIsSkipped(width: nat)
    ensures '/' !in Transform(width) && IsTransformSegment(Transform(width), IsDigit)
    ensures Transform(width)[0] == 'f'
  {
    PrintIsDigits(width);
    var t := Transform(width);
    assert t[0] == 'f' && t[6] == ',';
  }

  /** The link a rewrite gives: still a delivery link, with the same head and the same public id. */
  lemma RewriteAgain(url: string, after: string, width: nat)
    requires IsDeliveryPattern(url) && IndexOf(url, MARKER) != -1
    requires after == url[IndexOf(url, MARKER) + |MARKER|..] && PublicIdPath(after, IsDigit) != ""
    ensures var index := IndexOf(url, MARKER);
            var url' := CatalogImageUrl(Some(url), width).value;
            && IsDeliveryPattern(url') && IndexOf(url', MARKER) == index && index + |MARKER| <= |url'|
            && url'[..index + |MARKER|] == url[..index + |MARKER|]
            && PublicIdPath(url'[index + |MARKER|..], IsDigit) == PublicIdPath(after, IsDigit)
  {
    hide PublicIdPath, IsDeliveryPattern, IndexFrom, Transform, IsTransformSegment;
    var index, id := IndexOf(url, MARKER), PublicIdPath(after, IsDigit);
    var more := Transform(width) + "/" + id;
    var url' := url[..index + |MARKER|] + more;
    assert CatalogImageUrl(Some(url), width).value == url' by {
      assert url[..index + |MARKER|] + Transform(width) + "/" + id == url';
    }
    TransformIsSkipped(width);
    RewrittenIsDelivery(url, more);
    MarkerStays(url, MARKER, more);
    PublicIdIsStable(after, Transform(width), IsDigit);
    assert url'[index + |MARKER|..] == more;
  }

  /** Rewriting for one width and then another is rewriting for the other alone. */
  lemma LastWidthWins(url: Option<string>, first: nat, second: nat)
    ensures CatalogImageUrl(CatalogImageUrl(url, first), second) == CatalogImageUrl(url, second)
  {
    if url.Some? && url.value != "" && IsDeliveryPattern(url.value) {
      MarkerIsInPath(url.value);
      var index := IndexOf(url.value, MARKER);
      var after := url.value[index + |MARKER|..];
      if PublicIdPath(after, IsDigit) != "" {
        RewriteAgain(url.value, after, first);
      }
    }
  }

  // ---------------------------------------------------------------------------------------
  // The text of a rewritten link
  // ---------------------------------------------------------------------------------------

  /** The segments in front of a public id: empty, a version, or anything with a comma or underscore. */
  lemma SkippedMeans(segment: string, digit: DigitTest)
    ensures Skipped(segment, digit)
       <==> segment == "" || ',' in segment || '_' in segment
            || (|segment| >= 2 && segment[0] == 'v' && forall i | 1 <= i < |segment| :: digit(segment[i]))
  {
  }

  /** `head` is a path, without query or fragment, that the marker follows for the first time. */
  predicate HeadOf(head: string) {
    && (head == "" || head[0] == '/') && '?' !in head && '#' !in head
    && IndexOf(head + MARKER, MARKER) == |head|
  }

  /** A delivery link keeps its head and gets the transforms, the width and its public id. */
  lemma RewriteMeans(head: string, after: string, width: nat)
    requires HeadOf(head) && after != "" && after[0] != '?' && after[0] != '#'
    ensures var url := "https://res.cloudinary.com" + head + "/image/upload/" + after;
            CatalogImageUrl(Some(url), width)
            == Some(if PublicIdPath(after, IsDigit) == "" then url
                    else "https://res.cloudinary.com" + head + "/image/upload/"
                         + ("f_auto,q_auto,w_" + Print(width)) + "/" + PublicIdPath(after, IsDigit))
  {
    var url := HOST + head + MARKER + after;
    HeadIsFound(head, after);
    assert url[..|HOST| + |head| + |MARKER|] == HOST + head + MARKER;
    assert url[|HOST| + |head| + |MARKER|..] == after;
    hide PublicIdPath, IsDeliveryPattern, IndexOf, HeadOf;
  }

  lemma HeadIsFound(head: string, after: string)
    requires HeadOf(head) && after != "" && after[0] != '?' && after[0] != '#'
    ensures IsDeliveryPattern(HOST + head + MARKER + after)
    ensures IndexOf(HOST + head + MARKER + after, MARKER) == |HOST| + |head|
  {
    var url, kept := HOST + head + MARKER + after, head + MARKER;
    assert url == HOST + (kept + after) && url[|HOST|..] == kept + after;
    assert kept[..|head| + |MARKER|] == kept;
    PathExtends(kept, after);
    MarkerStays(kept, MARKER, PathOf(after));
    PathIsNotEmpty(after);
    hide IndexOf, OccursAt, PathOf, HeadOf;
    PatternFrom(url, kept + after, kept + PathOf(after), |head|);
    MarkerIsInPath(url);
  }

  lemma PatternFrom(url: string, rest: string, path: string, index: nat)
    requires HOST <= url && url[|HOST|..] == rest && PathOf(rest) == path
    requires rest != "" && rest[0] == '/' && IndexOf(path, MARKER) == index && |path| > index + |MARKER|
    ensures IsDeliveryPattern(url)
  {
  }

  lemma PathIsNotEmpty(after: string)
    requires after != "" && after[0] != '?' && after[0] != '#'
    ensures PathOf(after) != ""
  {
  }

  /** Anything else is left as it is, and no link stays no link. */
  lemma OthersAreLeft(url: string, width: nat)
    ensures CatalogImageUrl(None, width) == CatalogImageUrl(Some(""), width) == None
    ensures url != "" && !("https://res.cloudinary.com" <= url) ==> CatalogImageUrl(Some(url), width) == Some(url)
  {
  }

  /** Different widths give different links. */
  lemma WidthsDiffer(head: string, after: string, first: nat, second: nat)
    requires HeadOf(head) && after != "" && after[0] != '?' && after[0] != '#'
    requires PublicIdPath(after, IsDigit) != "" && first != second
    ensures var url := Some(HOST + head + MARKER + after); CatalogImageUrl(url, first) != CatalogImageUrl(url, second)
  {
    RewriteMeans(head, after, first);
    RewriteMeans(head, after, second);
    ReadPrint(first);
    ReadPrint(second);
    SameEnds(HOST + head + MARKER + "f_auto,q_auto,w_", Print(first), Print(second),
             "/" + PublicIdPath(after, IsDigit));
    RegroupWidth(HOST + head + MARKER, Print(first), PublicIdPath(after, IsDigit));
    RegroupWidth(HOST + head + MARKER, Print(second), PublicIdPath(after, IsDigit));
    hide CatalogImageUrl, PublicIdPath, Print, Read, HeadOf;
  }

  lemma RegroupWidth(prefix: string, width: string, id: string)
    ensures prefix + ("f_auto,q_auto,w_" + width) + "/" + id == prefix + "f_auto,q_auto,w_" + width + ("/" + id)
  {
  }

  lemma SameEnds(prefix: string, a: string, b: string, suffix: string)
    ensures prefix + a + suffix == prefix + b + suffix ==> a == b
  {
    if prefix + a + suffix == prefix + b + suffix {
      assert (prefix + a + suffix)[|prefix|..|prefix| + |a|] == a;
      assert (prefix + b + suffix)[|prefix|..|prefix| + |b|] == b;
    }
  }
}
