/** The exercise catalogue: comma-separated id lists, the target-muscle
    filter applied after the database query, manual pagination, video URL
    building and the sorted list of distinct target muscles. */
module Exercise {
  import opened Common
  import opened Text
  import opened Paging

  /** A row of `exercises`. */
  datatype ExerciseRow = ExerciseRow(id: int, name: Option<string>, muscle: Option<string>,
                                     difficultyLevelId: Option<int>, description: Option<string>,
                                     targetMuscles: Option<string>, videoPath: Option<string>,
                                     muscleGroupId: Option<int>)

  datatype ExerciseDto = ExerciseDto(id: int, name: Option<string>, muscle: Option<string>,
                                     difficulty: Option<int>, description: Option<string>,
                                     targetMuscles: Option<string>, videoPath: Option<string>)

  // ---- video URLs ----

  const DefaultVideoBase: string := "https://" + "kintore-videos.s3.ap-northeast-1.amazonaws.com"

  predicate IsAbsoluteUrl(s: string) {
    StartsWith(s, "http://") || StartsWith(s, "https://")
  }

  /** `VIDEO_BASE_URL`, or the default bucket when unset. */
  function VideoBaseUrl(envBase: Option<string>): string {
    GetOr(envBase, DefaultVideoBase)
  }

  lemma DefaultBaseIsAbsolute()
    ensures IsAbsoluteUrl(VideoBaseUrl(None))
  {
    assert DefaultVideoBase[..8] == "https://";
  }

  /** `build_video_url` with the base URL already read. */
  function BuildVideoUrl(videoPath: Option<string>, base: string): (url: Option<string>)
    ensures url.None? <==> videoPath.None? || IsAllWhitespace(videoPath.value)
    ensures url.Some? && IsAbsoluteUrl(videoPath.value) ==> url == videoPath
    ensures url.Some? && !IsAbsoluteUrl(videoPath.value) ==>
      exists k: nat :: k <= |videoPath.value|
        && (forall i :: 0 <= i < k ==> videoPath.value[i] == '/')
        && (k == |videoPath.value| || videoPath.value[k] != '/')
        && url.value == base + "/" + videoPath.value[k..]
  {
    match videoPath
    case None => None
    case Some(path) =>
      if Trim(path) == [] then None
      else if IsAbsoluteUrl(path) then Some(path)
      else
        var rest := TrimStartChar(path, '/');
        assert path[|path| - |rest|..] == rest;
        Some(base + "/" + rest)
  }

  /** Appending to an absolute URL keeps it absolute. */
  lemma AbsoluteKept(a: string, b: string)
    requires IsAbsoluteUrl(a)
    ensures IsAbsoluteUrl(a + b)
  {
    if StartsWith(a, "http://") {
      assert (a + b)[..7] == a[..7];
    } else {
      assert (a + b)[..8] == a[..8];
    }
  }

  /** An absolute URL is returned as it is. */
  lemma AbsoluteUrlKept(u: string, base: string)
    requires IsAbsoluteUrl(u)
    ensures BuildVideoUrl(Some(u), base) == Some(u)
  {
    assert u[0] == 'h';
    assert !IsWhitespace(u[0]);
  }

  /** With an absolute base URL, a built URL is returned unchanged when it
      is built again. */
  lemma BuildVideoUrlIdempotent(videoPath: Option<string>, base: string)
    requires IsAbsoluteUrl(base)
    ensures BuildVideoUrl(BuildVideoUrl(videoPath, base), base) == BuildVideoUrl(videoPath, base)
  {
    var url := BuildVideoUrl(videoPath, base);
    if url.Some? {
      BuiltIsAbsolute(videoPath.value, base);
      AbsoluteUrlKept(url.value, base);
    }
  }

  lemma BuiltIsAbsolute(path: string, base: string)
    requires IsAbsoluteUrl(base) && !IsAllWhitespace(path)
    ensures IsAbsoluteUrl(BuildVideoUrl(Some(path), base).value)
  {
    if !IsAbsoluteUrl(path) {
      var rest := TrimStartChar(path, '/');
      AbsoluteKept(base, "/" + rest);
      assert base + "/" + rest == base + ("/" + rest);
    }
  }

  // ---- id lists ----

  /** `s.trim().parse::<i32>().ok()` for one piece. */
  function ParsePiece(s: string): Option<int> {
    ParseI32(Trim(s))
  }

  /** `iter().map(f)`. */
  function MapSeq<A, B>(f: A -> B, xs: seq<A>): (r: seq<B>)
    ensures |r| == |xs| && forall k :: 0 <= k < |xs| ==> r[k] == f(xs[k])
  {
    seq(|xs|, k requires 0 <= k < |xs| => f(xs[k]))
  }

  lemma MapSeqConcat<A, B>(f: A -> B, a: seq<A>, b: seq<A>)
    ensures MapSeq(f, a + b) == MapSeq(f, a) + MapSeq(f, b)
  {
    assert forall k :: 0 <= k < |a| + |b| ==> MapSeq(f, a + b)[k] == (MapSeq(f, a) + MapSeq(f, b))[k];
  }

  /** `filter_map`: the present values, in order. */
  function Somes<T>(xs: seq<Option<T>>): (r: seq<T>)
    ensures |r| <= |xs|
  {
    if xs == [] then [] else (if xs[0].Some? then [xs[0].value] else []) + Somes(xs[1..])
  }

  /** A value is kept iff it is present somewhere. */
  lemma {:induction false} SomesMembership<T>(xs: seq<Option<T>>, x: T)
    ensures x in Somes(xs) <==> Some(x) in xs
  {
    if xs != [] {
      SomesMembership(xs[1..], x);
      assert xs == [xs[0]] + xs[1..];
    }
  }

  /** Order is kept and absent values drop out without disturbing the
      others: `Somes` distributes over concatenation. */
  lemma {:induction false} SomesConcat<T>(a: seq<Option<T>>, b: seq<Option<T>>)
    ensures Somes(a + b) == Somes(a) + Somes(b)
  {
    if a == [] {
      assert a + b == b;
    } else {
      assert (a + b)[0] == a[0] && (a + b)[1..] == a[1..] + b;
      SomesConcat(a[1..], b);
    }
  }

  /** Every value present gives back exactly the values. */
  lemma {:induction false} SomesOfAllPresent<T>(xs: seq<T>)
    ensures Somes(seq(|xs|, k requires 0 <= k < |xs| => Some(xs[k]))) == xs
  {
    if xs != [] {
      var opts := seq(|xs|, k requires 0 <= k < |xs| => Some(xs[k]));
      assert opts[1..] == seq(|xs[1..]|, k requires 0 <= k < |xs[1..]| => Some(xs[1..][k]));
      SomesOfAllPresent(xs[1..]);
    }
  }

  /** The ids of a comma-separated list: pieces are trimmed, those that do
      not parse as `i32` are dropped, order is kept. */
  function IdsOf(parts: seq<string>): seq<int> {
    Somes(MapSeq(ParsePiece, parts))
  }

  /** An id is in the list iff some piece parses to it after trimming. */
  lemma IdsOfMembership(parts: seq<string>, x: int)
    ensures x in IdsOf(parts) <==> exists k :: 0 <= k < |parts| && ParseI32(Trim(parts[k])) == Some(x)
  {
    SomesMembership(MapSeq(ParsePiece, parts), x);
    if Some(x) in MapSeq(ParsePiece, parts) {
      var k :| 0 <= k < |parts| && MapSeq(ParsePiece, parts)[k] == Some(x);
      assert ParsePiece(parts[k]) == Some(x);
    }
  }

  /** Every id read from a list fits in an `i32`. */
  lemma IdsOfAreI32(parts: seq<string>)
    ensures forall x :: x in IdsOf(parts) ==> IsI32(x)
  {
    forall x | x in IdsOf(parts) ensures IsI32(x) {
      IdsOfMembership(parts, x);
    }
  }

  /** The `muscles` and `difficulties` query parameters. */
  function IdList(param: Option<string>): seq<int> {
    match param
    case None => []
    case Some(m) => IdsOf(Split(m, ','))
  }

  /** Pieces are read left to right: the ids of a concatenation are the ids
      of each half, in order, so a token that does not parse is dropped
      without disturbing the others. */
  lemma IdsOfConcat(a: seq<string>, b: seq<string>)
    ensures IdsOf(a + b) == IdsOf(a) + IdsOf(b)
  {
    MapSeqConcat(ParsePiece, a, b);
    SomesConcat(MapSeq(ParsePiece, a), MapSeq(ParsePiece, b));
  }

  lemma ShownIsTrimmed(n: int)
    ensures Trim(IntToString(n)) == IntToString(n)
  {
    var s := IntToString(n);
    if n >= 0 {
      assert IsDigit(s[0]);
    } else {
      assert s[0] == '-' && |s| >= 2;
      assert s[1..][|s| - 2] == s[|s| - 1];
    }
    assert IsDigit(s[|s| - 1]);
    TrimStartOfTrimmed(s);
    TrimEndOfTrimmed(s);
  }

  lemma ParsesBack(n: int)
    requires IsI32(n)
    ensures ParseI32(Trim(IntToString(n))) == Some(n)
  {
    var s := IntToString(n);
    ShownIsTrimmed(n);
    assert Trim(s) == s;
    ParseShowI32(n);
  }

  /** Printing a list of `i32` ids, one piece per id, and reading it back
      gives the same ids. */
  lemma IdsOfShown(xs: seq<int>)
    requires forall x :: x in xs ==> IsI32(x)
    ensures IdsOf(seq(|xs|, k requires 0 <= k < |xs| => IntToString(xs[k]))) == xs
  {
    var parts := seq(|xs|, k requires 0 <= k < |xs| => IntToString(xs[k]));
    forall k | 0 <= k < |xs| ensures ParsePiece(parts[k]) == Some(xs[k]) {
      ParsesBack(xs[k]);
    }
    assert MapSeq(ParsePiece, parts) == seq(|xs|, k requires 0 <= k < |xs| => Some(xs[k]));
    SomesOfAllPresent(xs);
  }

  // ---- filtering ----

  /** The database query's `IN` conditions; a NULL column matches no list. */
  predicate InIdFilters(e: ExerciseRow, muscleIds: seq<int>, difficultyIds: seq<int>) {
    (muscleIds == [] || (e.muscleGroupId.Some? && e.muscleGroupId.value in muscleIds))
    && (difficultyIds == [] || (e.difficultyLevelId.Some? && e.difficultyLevelId.value in difficultyIds))
  }

  /** An exercise matches a selection when one of the selected names is one
      of its trimmed comma-separated target muscles. */
  predicate TargetsAny(e: ExerciseRow, selected: seq<string>) {
    e.targetMuscles.Some? && exists s :: s in selected && s in TrimAll(Split(e.targetMuscles.value, ','))
  }

  function KeepTargeted(rows: seq<ExerciseRow>, selected: seq<string>): (kept: seq<ExerciseRow>)
    ensures |kept| <= |rows|
    ensures forall e :: e in kept <==> e in rows && TargetsAny(e, selected)
  {
    if rows == [] then []
    else (if TargetsAny(rows[0], selected) then [rows[0]] else []) + KeepTargeted(rows[1..], selected)
  }

  /** The `target_muscles` step: no selection keeps every row. */
  function FilterByTargets(rows: seq<ExerciseRow>, selected: seq<string>): (kept: seq<ExerciseRow>)
    ensures selected == [] ==> kept == rows
    ensures selected != [] ==> forall e :: e in kept <==> e in rows && TargetsAny(e, selected)
  {
    if selected == [] then rows else KeepTargeted(rows, selected)
  }

  /** Filtering keeps the database order: it distributes over
      concatenation. */
  lemma {:induction false} KeepTargetedConcat(a: seq<ExerciseRow>, b: seq<ExerciseRow>, selected: seq<string>)
    ensures KeepTargeted(a + b, selected) == KeepTargeted(a, selected) + KeepTargeted(b, selected)
  {
    if a == [] {
      assert a + b == b;
    } else {
      assert (a + b)[0] == a[0] && (a + b)[1..] == a[1..] + b;
      KeepTargetedConcat(a[1..], b, selected);
    }
  }

  // ---- pagination ----

  /** `filtered[from..to]` with `from = (page * size) as usize` (wrapping
      `i32` product, sign-extending cast) and
      `to = min(from + size as usize, len)`; None where the slice bounds
      cross and the handler panics. */
  function Page<T>(rows: seq<T>, page: int, size: int): (r: Option<seq<T>>)
    ensures r.Some? ==> |r.value| <= |rows|
  {
    var from := WrapUsize(WrapI32(page * size));
    var to := Min(WrapUsize(from + WrapUsize(size)), |rows|);
    if from < |rows| then
      if to < from then None else Some(rows[from..to])
    else Some([])
  }

  /** For a non-negative page and a positive size whose product fits in
      `i32`, the page is the slice starting at `page * size`, at most
      `size` long, and empty past the end. */
  lemma PageIsSlice<T>(rows: seq<T>, page: int, size: int)
    requires 0 <= page && 0 < size <= I32Max && page * size <= I32Max
    ensures page * size < |rows| ==> Page(rows, page, size) == Some(rows[page * size..Min(page * size + size, |rows|)])
    ensures page * size >= |rows| ==> Page(rows, page, size) == Some([])
  {
    var from := page * size;
    assert 0 <= from;
    assert WrapUsize(WrapI32(from)) == from;
    assert WrapUsize(size) == size;
    assert WrapUsize(from + size) == from + size;
  }

  /** A negative page start is sign-extended to an index far past any
      vector (whose length is below 2^63), so the page is empty rather
      than a panic. */
  lemma NegativeStartIsEmpty<T>(rows: seq<T>, page: int, size: int)
    requires IsI32(page * size) && page * size < 0
    requires |rows| < 0x8000_0000_0000_0000
    ensures Page(rows, page, size) == Some([])
  {
    assert WrapI32(page * size) == page * size;
    assert WrapUsize(page * size) == U64Modulus + page * size;
  }

  /** A negative size wraps to almost `usize::MAX`, and adding it to a
      start inside the list wraps back to `start + size`: whenever that is
      not negative, the end bound falls below the start and the slice
      panics. */
  lemma NegativeSizeCrosses<T>(rows: seq<T>, page: int, size: int)
    requires I32Min <= size < 0 && IsI32(page * size)
    requires 0 <= page * size < |rows| && 0 <= page * size + size
    ensures Page(rows, page, size).None?
  {
    var from := page * size;
    assert WrapI32(from) == from && WrapUsize(from) == from;
    assert WrapUsize(size) == U64Modulus + size;
    assert WrapUsize(from + (U64Modulus + size)) == from + size;
  }

  datatype PagedResponse = PagedResponse(exercises: seq<ExerciseDto>, page: int, size: int,
                                         totalElements: int, totalPages: int, hasNext: bool)

  function ToDto(e: ExerciseRow, base: string): ExerciseDto {
    ExerciseDto(e.id, e.name, e.muscle, e.difficultyLevelId, e.description, e.targetMuscles,
                BuildVideoUrl(e.videoPath, base))
  }

  function ToDtos(rows: seq<ExerciseRow>, base: string): (dtos: seq<ExerciseDto>)
    ensures |dtos| == |rows| && forall k :: 0 <= k < |rows| ==> dtos[k] == ToDto(rows[k], base)
  {
    seq(|rows|, k requires 0 <= k < |rows| => ToDto(rows[k], base))
  }

  /** `get_exercises_paged` after the database query: `rows` is the
      query's result in `display_order, id` order. None where it panics. */
  function Paged(rows: seq<ExerciseRow>, targetParam: Option<string>, pageParam: Option<int>,
                 sizeParam: Option<int>, base: string): (r: Option<PagedResponse>)
    ensures r.Some? ==>
      var filtered := FilterByTargets(rows, if targetParam.Some? then CommaList(targetParam.value) else []);
      r.value.totalElements == |filtered| && |r.value.exercises| <= |filtered|
      && r.value.page == GetOr(pageParam, 0) && r.value.size == GetOr(sizeParam, 16)
  {
    var page := GetOr(pageParam, 0);
    var size := GetOr(sizeParam, 16);
    var selected := if targetParam.Some? then CommaList(targetParam.value) else [];
    var filtered := FilterByTargets(rows, selected);
    var pages := TotalPages(|filtered|, size);
    match Page(filtered, page, size)
    case None => None
    case Some(slice) =>
      Some(PagedResponse(ToDtos(slice, base), page, size, |filtered|, pages, HasNext(page, pages)))
  }

  /** For any non-negative page and positive size whose end bound fits in
      `i32`, the response shows exactly the filtered rows from
      `page * size` up to `size` of them, counts its pages by the ceiling
      of the filtered total over the size, and has a next page exactly
      when rows remain after this one. */
  lemma PagedMeaning(rows: seq<ExerciseRow>, targetParam: Option<string>, page: int, size: int,
                     base: string)
    requires |rows| <= I32Max
    requires 0 <= page && 0 < size && 0 <= page * size && page * size + size <= I32Max
    ensures var r := Paged(rows, targetParam, Some(page), Some(size), base);
      var filtered := FilterByTargets(rows, if targetParam.Some? then CommaList(targetParam.value) else []);
      var start := page * size;
      r.Some?
      && r.value.exercises == ToDtos(filtered[Min(start, |filtered|)..Min(start + size, |filtered|)], base)
      && (r.value.totalPages - 1) * size < |filtered| <= r.value.totalPages * size
      && (r.value.hasNext <==> (page + 1) * size < |filtered|)
  {
    var filtered := FilterByTargets(rows, if targetParam.Some? then CommaList(targetParam.value) else []);
    assert |filtered| <= |rows| by {
      if targetParam.Some? && CommaList(targetParam.value) != [] {
        assert filtered == KeepTargeted(rows, CommaList(targetParam.value));
      }
    }
    PageIsSlice(filtered, page, size);
    HasNextMeansMore(|filtered|, page, size);
    if page * size >= |filtered| {
      assert filtered[|filtered|..|filtered|] == [];
    }
  }

  /** Under the default paging (page 0, size 16) the first sixteen
      filtered rows are shown, and more exist exactly when `hasNext`. */
  lemma DefaultPageShowsFirstSixteen(rows: seq<ExerciseRow>, targetParam: Option<string>, base: string)
    requires |rows| <= I32Max
    ensures var r := Paged(rows, targetParam, None, None, base);
      var filtered := FilterByTargets(rows, if targetParam.Some? then CommaList(targetParam.value) else []);
      r.Some? && r.value.exercises == ToDtos(filtered[..Min(16, |filtered|)], base)
      && (r.value.hasNext <==> |filtered| > 16)
  {
    var filtered := FilterByTargets(rows, if targetParam.Some? then CommaList(targetParam.value) else []);
    assert |filtered| <= |rows| by {
      if targetParam.Some? && CommaList(targetParam.value) != [] {
        assert filtered == KeepTargeted(rows, CommaList(targetParam.value));
      }
    }
    PageIsSlice(filtered, 0, 16);
    HasNextMeansMore(|filtered|, 0, 16);
    if |filtered| == 0 {
      assert filtered[..0] == [];
    }
  }

  // ---- the distinct target-muscle list ----

  /** Rust's `Ord` on `String`: byte-wise, which for UTF-8 is code-point
      order, with a proper prefix first. */
  predicate LexLess(a: string, b: string)
    decreases |a|
  {
    b != [] && (a == [] || a[0] < b[0] || (a[0] == b[0] && LexLess(a[1..], b[1..])))
  }

  lemma {:induction false} LexIrreflexive(a: string)
    ensures !LexLess(a, a)
    decreases |a|
  {
    if a != [] { LexIrreflexive(a[1..]); }
  }

  lemma {:induction false} LexTransitive(a: string, b: string, c: string)
    requires LexLess(a, b) && LexLess(b, c)
    ensures LexLess(a, c)
    decreases |a|
  {
    if a != [] && a[0] == b[0] && b[0] == c[0] {
      LexTransitive(a[1..], b[1..], c[1..]);
    }
  }

  lemma {:induction false} LexTotal(a: string, b: string)
    requires a != b
    ensures LexLess(a, b) || LexLess(b, a)
    decreases |a|
  {
    if a != [] && b != [] && a[0] == b[0] {
      LexTotal(a[1..], b[1..]);
    }
  }

  predicate StrictlySorted(xs: seq<string>) {
    forall i, j :: 0 <= i < j < |xs| ==> LexLess(xs[i], xs[j])
  }

  function InsertSorted(x: string, xs: seq<string>): (r: seq<string>)
    requires StrictlySorted(xs)
    ensures StrictlySorted(r)
    ensures forall y :: y in r <==> y == x || y in xs
  {
    if xs == [] then [x]
    else if x == xs[0] then xs
    else if LexLess(x, xs[0]) then
      assert forall j :: 0 < j < |xs| ==> LexLess(x, xs[j]) by {
        forall j | 0 < j < |xs| ensures LexLess(x, xs[j]) { LexTransitive(x, xs[0], xs[j]); }
      }
      [x] + xs
    else
      LexTotal(x, xs[0]);
      var tail := InsertSorted(x, xs[1..]);
      assert forall y :: y in tail ==> LexLess(xs[0], y) by {
        forall y | y in tail ensures LexLess(xs[0], y) {
          if y != x {
            var j :| 0 <= j < |xs[1..]| && xs[1..][j] == y;
            assert xs[j + 1] == y;
          }
        }
      }
      [xs[0]] + tail
  }

  /** `sort` followed by `dedup`. */
  function SortDedup(xs: seq<string>): (r: seq<string>)
    ensures StrictlySorted(r)
    ensures forall y :: y in r <==> y in xs
  {
    if xs == [] then []
    else
      var r := InsertSorted(xs[|xs| - 1], SortDedup(xs[..|xs| - 1]));
      assert forall y :: y in xs <==> y in xs[..|xs| - 1] || y == xs[|xs| - 1] by {
        assert xs == xs[..|xs| - 1] + [xs[|xs| - 1]];
      }
      r
  }

  /** A strictly sorted list is determined by its elements: any sort and
      deduplication of the same strings gives this list. */
  lemma {:induction false} SortedUnique(a: seq<string>, b: seq<string>)
    requires StrictlySorted(a) && StrictlySorted(b)
    requires forall y :: y in a <==> y in b
    ensures a == b
    decreases |a|
  {
    assert a == [] <==> b == [] by {
      if a != [] { assert a[0] in a; }
      if b != [] { assert b[0] in b; }
    }
    if a != [] {
      if a[0] != b[0] {
        assert a[0] in a && b[0] in b;
        var i :| 0 <= i < |b| && b[i] == a[0];
        var j :| 0 <= j < |a| && a[j] == b[0];
        assert LexLess(b[0], a[0]);
        assert LexLess(a[0], b[0]);
        LexTransitive(a[0], b[0], a[0]);
        LexIrreflexive(a[0]);
      }
      forall y ensures y in a[1..] <==> y in b[1..] {
        if y in a[1..] {
          var i :| 0 <= i < |a[1..]| && a[1..][i] == y;
          assert LexLess(a[0], a[i + 1]);
          if y == b[0] { LexIrreflexive(y); }
          assert y in a;
          var k :| 0 <= k < |b| && b[k] == y;
          assert k != 0;
          assert b[1..][k - 1] == y;
        }
        if y in b[1..] {
          var i :| 0 <= i < |b[1..]| && b[1..][i] == y;
          assert LexLess(b[0], b[i + 1]);
          if y == a[0] { LexIrreflexive(y); }
          assert y in b;
          var k :| 0 <= k < |a| && a[k] == y;
          assert k != 0;
          assert a[1..][k - 1] == y;
        }
      }
      SortedUnique(a[1..], b[1..]);
    }
  }

  /** `flat_map`: the concatenation of the lists, in order. */
  function Flatten<T>(xss: seq<seq<T>>): seq<T> {
    if xss == [] then [] else xss[0] + Flatten(xss[1..])
  }

  lemma {:induction false} FlattenMembership<T>(xss: seq<seq<T>>, x: T)
    ensures x in Flatten(xss) <==> exists k :: 0 <= k < |xss| && x in xss[k]
  {
    if xss != [] {
      var tail := xss[1..];
      FlattenMembership(tail, x);
      assert forall k :: 1 <= k < |xss| ==> xss[k] == tail[k - 1];
      if x in Flatten(tail) {
        var k :| 0 <= k < |tail| && x in tail[k];
        assert xss[k + 1] == tail[k];
      }
    }
  }

  /** The trimmed comma pieces of one `target_muscles` value. */
  function PiecesOf(value: Option<string>): seq<string> {
    if value.Some? then TrimAll(Split(value.value, ',')) else []
  }

  /** A piece is in the flattened pieces iff one value yields it. */
  lemma FlattenMapMembership<A, T>(f: A -> seq<T>, xs: seq<A>, x: T)
    ensures x in Flatten(MapSeq(f, xs)) <==> exists k :: 0 <= k < |xs| && x in f(xs[k])
  {
    FlattenMembership(MapSeq(f, xs), x);
    if x in Flatten(MapSeq(f, xs)) {
      var k :| 0 <= k < |xs| && x in MapSeq(f, xs)[k];
      assert x in f(xs[k]);
    }
  }

  /** `get_target_muscles` after the query. */
  function TargetMuscleList(values: seq<Option<string>>): (muscles: seq<string>)
    ensures StrictlySorted(muscles)
    ensures forall m :: m in muscles ==> m != []
  {
    SortDedup(NonEmpty(Flatten(MapSeq(PiecesOf, values))))
  }

  /** Each non-empty trimmed piece of every value appears exactly once, in
      sorted position, and nothing else appears. */
  lemma TargetMuscleListMeaning(values: seq<Option<string>>, m: string)
    ensures m in TargetMuscleList(values) <==>
      m != [] && exists k :: 0 <= k < |values| && m in PiecesOf(values[k])
    ensures forall i, j :: 0 <= i < j < |TargetMuscleList(values)| ==> TargetMuscleList(values)[i] != TargetMuscleList(values)[j]
  {
    FlattenMapMembership(PiecesOf, values, m);
    var ms := TargetMuscleList(values);
    forall i, j | 0 <= i < j < |ms| ensures ms[i] != ms[j] {
      if ms[i] == ms[j] { LexIrreflexive(ms[i]); }
    }
  }
}
