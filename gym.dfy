/** Gym search: filter parsing, the dynamically built id and count queries
    with their bound values, grouping of tags by gym, and the paged
    response. */
module Gym {
  import opened Common
  import opened Text
  import opened Paging

  // ---- query parameters ----

  datatype GymQuery = GymQuery(tags: Option<string>, maxPrice: Option<int>, search: Option<string>,
                               areas: Option<string>, page: Option<int>, size: Option<int>)

  datatype Filters = Filters(tagNames: seq<string>, areas: seq<string>, search: Option<string>,
                             maxPrice: Option<int>)

  /** The `LIKE` pattern: absent for a missing or blank search, otherwise
      the trimmed, lower-cased text between two `%`. */
  function SearchPattern(search: Option<string>): (pattern: Option<string>)
    ensures pattern.None? <==> search.None? || IsAllWhitespace(search.value)
  {
    match search
    case None => None
    case Some(s) => if Trim(s) == [] then None else Some("%" + Lower(Trim(s)) + "%")
  }

  /** A pattern is `%`, a non-blank, trimmed, lower-case term, then `%`. */
  lemma SearchPatternShape(search: string)
    requires !IsAllWhitespace(search)
    ensures var p := SearchPattern(Some(search)).value;
      |p| >= 3 && p[0] == '%' && p[|p| - 1] == '%'
      && var term := p[1..|p| - 1];
      term == Lower(Trim(search)) && Lower(term) == term && |term| == |Trim(search)|
  {
    var p := SearchPattern(Some(search)).value;
    var t := Lower(Trim(search));
    assert p == "%" + t + "%";
    assert p[1..|p| - 1] == t;
    LowerIdempotent(Trim(search));
  }

  lemma LowerIdempotent(s: string)
    ensures Lower(Lower(s)) == Lower(s)
  {
    var l := Lower(s);
    assert forall i :: 0 <= i < |s| ==> Lower(l)[i] == l[i];
  }

  function ParseFilters(q: GymQuery): (f: Filters)
    ensures f.search == SearchPattern(q.search) && f.maxPrice == q.maxPrice
    ensures q.tags.None? ==> f.tagNames == []
    ensures q.areas.None? ==> f.areas == []
  {
    Filters(if q.tags.Some? then CommaList(q.tags.value) else [],
            if q.areas.Some? then CommaList(q.areas.value) else [],
            SearchPattern(q.search), q.maxPrice)
  }

  /** Tag and area entries are non-empty, trimmed and comma-free. */
  lemma ParsedEntriesAreClean(q: GymQuery)
    ensures var f := ParseFilters(q);
      forall x :: x in f.tagNames || x in f.areas ==> x != [] && Trim(x) == x && ',' !in x
  {
    if q.tags.Some? { CommaListEntries(q.tags.value); }
    if q.areas.Some? { CommaListEntries(q.areas.value); }
  }

  /** No tag, area, search or price filter: the plain `LIMIT/OFFSET` path. */
  predicate Unfiltered(f: Filters) {
    f.tagNames == [] && f.areas == [] && f.search.None? && f.maxPrice.None?
  }

  // ---- query text and bound values ----

  /** A query is text with each `?` placeholder as its own piece. */
  datatype SqlPiece = Sql(text: string) | Param

  datatype Bind = IntBind(n: int) | TextBind(s: string)

  function ParamCount(query: seq<SqlPiece>): nat {
    if query == [] then 0 else (if query[0].Param? then 1 else 0) + ParamCount(query[1..])
  }

  lemma {:induction false} ParamCountAppend(a: seq<SqlPiece>, b: seq<SqlPiece>)
    ensures ParamCount(a + b) == ParamCount(a) + ParamCount(b)
  {
    if a == [] {
      assert a + b == b;
    } else {
      assert (a + b)[1..] == a[1..] + b;
      ParamCountAppend(a[1..], b);
    }
  }

  /** `iter().map(|_| "?").collect::<Vec<_>>().join(",")`. */
  function Placeholders(n: nat): (query: seq<SqlPiece>)
    ensures ParamCount(query) == n
  {
    if n == 0 then []
    else if n == 1 then [Param]
    else
      var rest := Placeholders(n - 1);
      ParamCountAppend([Param, Sql(",")], rest);
      [Param, Sql(",")] + rest
  }

  const PriceClause: seq<SqlPiece> := [Sql(" AND (g.price_range IS NULL OR g.price_range <= "), Param, Sql(")")]
  const SearchClause: seq<SqlPiece> :=
    [Sql(" AND (LOWER(g.name) LIKE "), Param, Sql(" OR LOWER(g.address) LIKE "), Param, Sql(")")]

  lemma ClauseCounts()
    ensures ParamCount(PriceClause) == 1 && ParamCount(SearchClause) == 2
  {
    assert PriceClause[1..][1..] == [Sql(")")];
    assert SearchClause[1..][1..][1..][1..] == [Sql(")")];
  }

  function AreaClause(n: nat): (clause: seq<SqlPiece>)
    ensures ParamCount(clause) == n
  {
    var open := [Sql(" AND g.area IN (")];
    ParamCountAppend(open, Placeholders(n));
    ParamCountAppend(open + Placeholders(n), [Sql(")")]);
    open + Placeholders(n) + [Sql(")")]
  }

  /** The tag condition: one placeholder per tag, then one for the count. */
  function HavingClause(n: nat): (clause: seq<SqlPiece>)
    ensures ParamCount(clause) == n + 1
  {
    var open := [Sql(" HAVING COUNT(DISTINCT CASE WHEN t.name IN (")];
    var close := [Sql(") THEN t.name END) = "), Param];
    ParamCountAppend(open, Placeholders(n));
    ParamCountAppend(open + Placeholders(n), close);
    open + Placeholders(n) + close
  }

  function TextBinds(xs: seq<string>): (binds: seq<Bind>)
    ensures |binds| == |xs| && forall k :: 0 <= k < |xs| ==> binds[k] == TextBind(xs[k])
  {
    seq(|xs|, k requires 0 <= k < |xs| => TextBind(xs[k]))
  }

  /** The values bound for the filters, in the order the clauses appear:
      price, the search pattern twice, each area, each tag, the tag count. */
  function FilterBinds(f: Filters): seq<Bind> {
    (if f.maxPrice.Some? then [IntBind(f.maxPrice.value)] else [])
    + (if f.search.Some? then [TextBind(f.search.value), TextBind(f.search.value)] else [])
    + TextBinds(f.areas) + TextBinds(f.tagNames)
    + (if f.tagNames != [] then [IntBind(|f.tagNames|)] else [])
  }

  /** Price binds one value, search two, each area and each tag one, and
      the tag count one more; nothing is bound exactly when nothing
      filters. */
  lemma FilterBindsCount(f: Filters)
    ensures |FilterBinds(f)| == (if f.maxPrice.Some? then 1 else 0) + (if f.search.Some? then 2 else 0)
                                + |f.areas| + |f.tagNames| + (if f.tagNames != [] then 1 else 0)
    ensures FilterBinds(f) == [] <==> Unfiltered(f)
  {}

  /** The clauses shared by both queries, as far as `WHERE` goes. */
  method AppendWhere(query0: seq<SqlPiece>, f: Filters) returns (query: seq<SqlPiece>)
    ensures ParamCount(query) == ParamCount(query0) + (if f.maxPrice.Some? then 1 else 0)
                                 + (if f.search.Some? then 2 else 0) + |f.areas|
  {
    ClauseCounts();
    query := query0;
    if f.maxPrice.Some? {
      ParamCountAppend(query, PriceClause);
      query := query + PriceClause;
    }
    if f.search.Some? {
      ParamCountAppend(query, SearchClause);
      query := query + SearchClause;
    }
    if f.areas != [] {
      ParamCountAppend(query, AreaClause(|f.areas|));
      query := query + AreaClause(|f.areas|);
    }
  }

  /** Appends each value of `xs` as a text bind, as the `for` loops do. */
  method BindEach(binds0: seq<Bind>, xs: seq<string>) returns (binds: seq<Bind>)
    ensures binds == binds0 + TextBinds(xs)
  {
    binds := binds0;
    for i := 0 to |xs|
      invariant binds == binds0 + TextBinds(xs[..i])
    {
      assert TextBinds(xs[..i + 1]) == TextBinds(xs[..i]) + [TextBind(xs[i])];
      binds := binds + [TextBind(xs[i])];
    }
    assert xs[..|xs|] == xs;
  }

  /** The binds shared by both queries, in the order the handler adds them. */
  method BindFilters(f: Filters) returns (binds: seq<Bind>)
    ensures binds == FilterBinds(f)
  {
    var price := if f.maxPrice.Some? then [IntBind(f.maxPrice.value)] else [];
    var search := if f.search.Some? then [TextBind(f.search.value), TextBind(f.search.value)] else [];
    binds := [];
    if f.maxPrice.Some? {
      binds := binds + [IntBind(f.maxPrice.value)];
    }
    assert binds == price;
    if f.search.Some? {
      binds := binds + [TextBind(f.search.value)];
      binds := binds + [TextBind(f.search.value)];
    }
    assert binds == price + search;
    binds := BindEach(binds, f.areas);
    binds := BindEach(binds, f.tagNames);
    if f.tagNames != [] {
      binds := binds + [IntBind(|f.tagNames|)];
    }
  }

  /** The id query when some filter is present. */
  method FilteredIdQuery(f: Filters) returns (query: seq<SqlPiece>)
    ensures ParamCount(query) == (if f.maxPrice.Some? then 1 else 0) + (if f.search.Some? then 2 else 0)
                                 + |f.areas| + |f.tagNames| + (if f.tagNames != [] then 1 else 0) + 2
  {
    query := [Sql("SELECT g.id FROM gyms g LEFT JOIN gym_tags gt ON g.id = gt.gym_id "
                  + "LEFT JOIN tags t ON gt.tag_id = t.id WHERE 1=1")];
    assert ParamCount(query) == 0;
    query := AppendWhere(query, f);
    ParamCountAppend(query, [Sql(" GROUP BY g.id")]);
    query := query + [Sql(" GROUP BY g.id")];
    if f.tagNames != [] {
      var having := HavingClause(|f.tagNames|);
      ParamCountAppend(query, having);
      query := query + having;
    }
    var tail := [Sql(" ORDER BY g.id ASC LIMIT "), Param, Sql(" OFFSET "), Param];
    assert tail[1..][1..][1..][1..] == [];
    ParamCountAppend(query, tail);
    query := query + tail;
  }

  /** The page-of-ids query: as many placeholders as bound values, the
      filter values followed by `size` and `offset`, and only `size` and
      `offset` when nothing filters. */
  method BuildIdQuery(f: Filters, size: int, offset: int) returns (query: seq<SqlPiece>, binds: seq<Bind>)
    ensures ParamCount(query) == |binds|
    ensures binds == FilterBinds(f) + [IntBind(size), IntBind(offset)]
    ensures |binds| == 2 <==> Unfiltered(f)
  {
    FilterBindsCount(f);
    if Unfiltered(f) {
      query := [Sql("SELECT id FROM gyms ORDER BY id ASC LIMIT "), Param, Sql(" OFFSET "), Param];
      binds := [IntBind(size), IntBind(offset)];
      return;
    }
    query := FilteredIdQuery(f);
    binds := BindFilters(f);
    binds := binds + [IntBind(size)];
    binds := binds + [IntBind(offset)];
  }

  /** With tags, the count wraps the grouped id query in a sub-query. */
  method CountSubquery(f: Filters) returns (query: seq<SqlPiece>)
    requires f.tagNames != []
    ensures ParamCount(query) == (if f.maxPrice.Some? then 1 else 0) + (if f.search.Some? then 2 else 0)
                                 + |f.areas| + |f.tagNames| + 1
  {
    query := [Sql("SELECT COUNT(*) FROM ( SELECT g.id FROM gyms g LEFT JOIN gym_tags gt ON g.id = gt.gym_id "
                  + "LEFT JOIN tags t ON gt.tag_id = t.id WHERE 1=1 ")];
    assert ParamCount(query) == 0;
    query := AppendWhere(query, f);
    var having := HavingClause(|f.tagNames|);
    var tail := [Sql(" GROUP BY g.id")] + having + [Sql(" ) AS filtered")];
    ParamCountAppend([Sql(" GROUP BY g.id")], having);
    ParamCountAppend([Sql(" GROUP BY g.id")] + having, [Sql(" ) AS filtered")]);
    ParamCountAppend(query, tail);
    query := query + tail;
  }

  /** The total-count query: the same filters, the same values bound in the
      same order, without `size` and `offset`; with tags the count runs over
      a grouped sub-query. */
  method BuildCountQuery(f: Filters) returns (query: seq<SqlPiece>, binds: seq<Bind>)
    ensures ParamCount(query) == |binds|
    ensures binds == FilterBinds(f)
  {
    FilterBindsCount(f);
    if Unfiltered(f) {
      query := [Sql("SELECT COUNT(*) FROM gyms")];
      binds := [];
      return;
    }
    if f.tagNames == [] {
      query := [Sql("SELECT COUNT(DISTINCT g.id) FROM gyms g LEFT JOIN gym_tags gt ON g.id = gt.gym_id "
                    + "LEFT JOIN tags t ON gt.tag_id = t.id WHERE 1=1")];
      query := AppendWhere(query, f);
    } else {
      query := CountSubquery(f);
    }
    binds := BindFilters(f);
  }

  // ---- tags by gym ----

  datatype GymTagRow = GymTagRow(gymId: int, tagId: int, tagName: Option<string>)

  datatype TagDto = TagDto(id: int, name: Option<string>)

  /** The tags of gym `g`, in the order the rows arrive. */
  function TagsOf(rows: seq<GymTagRow>, g: int): seq<TagDto> {
    if rows == [] then []
    else
      var last := rows[|rows| - 1];
      TagsOf(rows[..|rows| - 1], g) + (if last.gymId == g then [TagDto(last.tagId, last.tagName)] else [])
  }

  /** Tags of one gym come only from that gym's rows, one per row. */
  lemma {:induction false} TagsOfCount(rows: seq<GymTagRow>, g: int)
    ensures |TagsOf(rows, g)| == |set k | 0 <= k < |rows| && rows[k].gymId == g|
  {
    if rows != [] {
      var n := |rows| - 1;
      TagsOfCount(rows[..n], g);
      var before := set k | 0 <= k < n && rows[..n][k].gymId == g;
      var now := set k | 0 <= k < |rows| && rows[k].gymId == g;
      if rows[n].gymId == g {
        assert now == before + {n};
      } else {
        assert now == before;
      }
    }
  }

  /** The gyms that have at least one tag row. */
  function GymIds(rows: seq<GymTagRow>): set<int> {
    if rows == [] then {} else GymIds(rows[..|rows| - 1]) + {rows[|rows| - 1].gymId}
  }

  lemma {:induction false} GymIdsMembership(rows: seq<GymTagRow>, g: int)
    ensures g in GymIds(rows) <==> exists k :: 0 <= k < |rows| && rows[k].gymId == g
  {
    if rows != [] {
      var n := |rows| - 1;
      GymIdsMembership(rows[..n], g);
      if exists k :: 0 <= k < |rows| && rows[k].gymId == g {
        var k :| 0 <= k < |rows| && rows[k].gymId == g;
        if k < n { assert rows[..n][k] == rows[k]; }
      }
    }
  }

  /** A gym without rows has no tags. */
  lemma {:induction false} TagsOfAbsent(rows: seq<GymTagRow>, g: int)
    requires g !in GymIds(rows)
    ensures TagsOf(rows, g) == []
  {
    if rows != [] {
      TagsOfAbsent(rows[..|rows| - 1], g);
    }
  }

  /** `tags_by_gym`: `entry(gym_id).or_default().push(tag)` for each row. */
  method GroupTags(rows: seq<GymTagRow>) returns (byGym: map<int, seq<TagDto>>)
    ensures forall g :: g in byGym <==> exists k :: 0 <= k < |rows| && rows[k].gymId == g
    ensures forall g :: g in byGym ==> byGym[g] == TagsOf(rows, g)
  {
    byGym := map[];
    for i := 0 to |rows|
      invariant byGym.Keys == GymIds(rows[..i])
      invariant forall g :: g in byGym ==> byGym[g] == TagsOf(rows[..i], g)
    {
      var r := rows[i];
      assert rows[..i + 1][..i] == rows[..i];
      var existing := if r.gymId in byGym then byGym[r.gymId] else [];
      assert existing == TagsOf(rows[..i], r.gymId) by {
        if r.gymId !in byGym { TagsOfAbsent(rows[..i], r.gymId); }
      }
      byGym := byGym[r.gymId := existing + [TagDto(r.tagId, r.tagName)]];
    }
    assert rows[..|rows|] == rows;
    forall g ensures g in byGym <==> exists k :: 0 <= k < |rows| && rows[k].gymId == g {
      GymIdsMembership(rows, g);
    }
  }

  // ---- the response ----

  datatype GymRow = GymRow(id: int, name: Option<string>, address: Option<string>, phone: Option<string>,
                           priceRange: Option<int>, openHours: Option<string>, area: Option<string>,
                           latitude: Option<real>, longitude: Option<real>)

  datatype GymDto = GymDto(id: int, name: Option<string>, address: Option<string>, phone: Option<string>,
                           priceRange: Option<int>, openHours: Option<string>, area: Option<string>,
                           latitude: Option<real>, longitude: Option<real>, tags: seq<TagDto>)

  datatype GymPagedResponse = GymPagedResponse(gyms: seq<GymDto>, count: int, page: int, size: int,
                                               totalElements: int, totalPages: int, hasNext: bool,
                                               hasPrevious: bool)

  function ToGymDto(g: GymRow, byGym: map<int, seq<TagDto>>): GymDto {
    GymDto(g.id, g.name, g.address, g.phone, g.priceRange, g.openHours, g.area, g.latitude, g.longitude,
           if g.id in byGym then byGym[g.id] else [])
  }

  /** `offset = page * size` on `i32`. */
  function Offset(page: int, size: int): (offset: int)
    ensures IsI32(offset)
    ensures IsI32(page * size) ==> offset == page * size
  {
    WrapI32(page * size)
  }

  /** The response of `search_gyms_paged` once the queries have run:
      `gymIds` from the id query, `total` from the count query, `gyms` the
      detail rows. */
  function Respond(gymIds: seq<int>, gyms: seq<GymRow>, byGym: map<int, seq<TagDto>>, total: nat,
                   page: int, size: int): (r: GymPagedResponse)
    ensures gymIds == [] ==>
      r.gyms == [] && r.count == 0 && r.totalElements == 0 && r.totalPages == 0 && !r.hasNext
    ensures gymIds != [] ==>
      |r.gyms| == |gyms| && r.totalElements == total && IsI32(r.count)
      && (|gyms| <= I32Max ==> r.count == |gyms|)
    ensures r.hasPrevious <==> page > 0
  {
    if gymIds == [] then GymPagedResponse([], 0, page, size, 0, 0, false, page > 0)
    else
      var dtos := seq(|gyms|, k requires 0 <= k < |gyms| => ToGymDto(gyms[k], byGym));
      var pages := TotalPages(total, size);
      GymPagedResponse(dtos, WrapI32(|dtos|), page, size, total, pages, HasNext(page, pages), page > 0)
  }

  /** A page past the last one reports no elements and no pages, although
      matching gyms exist on earlier pages. */
  lemma EmptyPageHidesTotal(total: nat, page: int, size: int)
    requires total > 0
    ensures var r := Respond([], [], map[], total, page, size);
      r.totalElements == 0 && r.totalPages == 0 && !r.hasNext && r.totalElements != total
  {}

  /** On a non-empty page with a positive size, `hasNext` holds exactly when
      the next page starts before the last counted gym, and each gym carries
      the tags of its rows. */
  lemma NonEmptyPageMeaning(gymIds: seq<int>, gyms: seq<GymRow>, rows: seq<GymTagRow>,
                            byGym: map<int, seq<TagDto>>, total: nat, page: int, size: int)
    requires gymIds != [] && size > 0 && page >= 0 && total <= I32Max
    requires forall g :: g in byGym <==> exists k :: 0 <= k < |rows| && rows[k].gymId == g
    requires forall g :: g in byGym ==> byGym[g] == TagsOf(rows, g)
    ensures var r := Respond(gymIds, gyms, byGym, total, page, size);
      (r.hasNext <==> (page + 1) * size < total)
      && forall k :: 0 <= k < |gyms| ==> r.gyms[k].tags == TagsOf(rows, gyms[k].id)
  {
    HasNextMeansMore(total, page, size);
    forall g ensures (if g in byGym then byGym[g] else []) == TagsOf(rows, g) {
      TagsLookup(rows, byGym, g);
    }
  }

  /** Looking a gym up in the grouped map gives its tags, or none. */
  lemma TagsLookup(rows: seq<GymTagRow>, byGym: map<int, seq<TagDto>>, g: int)
    requires forall g :: g in byGym <==> exists k :: 0 <= k < |rows| && rows[k].gymId == g
    requires forall g :: g in byGym ==> byGym[g] == TagsOf(rows, g)
    ensures (if g in byGym then byGym[g] else []) == TagsOf(rows, g)
  {
    if g !in byGym {
      GymIdsMembership(rows, g);
      TagsOfAbsent(rows, g);
    }
  }

  /** `search_gyms_paged` up to the database calls: the filters, the page
      and size defaults (0 and 24) and the two queries with their values. */
  method PlanSearch(q: GymQuery)
    returns (page: int, size: int, idQuery: seq<SqlPiece>, idBinds: seq<Bind>,
             countQuery: seq<SqlPiece>, countBinds: seq<Bind>)
    ensures page == GetOr(q.page, 0) && size == GetOr(q.size, 24)
    ensures ParamCount(idQuery) == |idBinds| && ParamCount(countQuery) == |countBinds|
    ensures idBinds == countBinds + [IntBind(size), IntBind(Offset(page, size))]
    ensures countBinds == FilterBinds(ParseFilters(q))
  {
    page := GetOr(q.page, 0);
    size := GetOr(q.size, 24);
    var f := ParseFilters(q);
    idQuery, idBinds := BuildIdQuery(f, size, Offset(page, size));
    countQuery, countBinds := BuildCountQuery(f);
  }
}
