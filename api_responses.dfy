/** `ApiResponseFactory`: the envelopes of HTTP responses (`success`, `paginated`,
    `error`) and the `meta` object they share. The clock behind `DateUtil.nowISO()` is
    the parameter `now` (milliseconds since the epoch) and the UUID behind
    `UniqueEntityID.generate()` is the parameter `generated`. `meta` is a plain object,
    a field list as in `JsValues`; `...undefined` spreads nothing, so an absent
    `meta` is the empty list. */
module ApiResponses {
  import opened JsValues
  import opened Options
  import DateUtil

  // ---------------------------------------------------------------------------
  // Meta

  /** The two fields every meta object starts from. */
  function MetaBase(traceId: Option<string>, now: int, generated: string): (b: seq<Field>)
    ensures DistinctKeys(b) && Keys(b) == ["timestamp", "traceId"]
  {
    [Field("timestamp", JsString(DateUtil.ToIsoString(now))),
     Field("traceId", JsString(if traceId.Some? then traceId.value else generated))]
  }

  /** `buildMeta(traceId, extraMeta)`: `{ timestamp, traceId: traceId ?? generated,
      ...extraMeta }`. */
  function BuildMeta(traceId: Option<string>, extraMeta: seq<Field>, now: int, generated: string): (m: seq<Field>)
    ensures DistinctKeys(m)
    ensures |m| >= 2 && Keys(m)[..2] == ["timestamp", "traceId"]
    ensures forall k :: k in Keys(m) <==> k == "timestamp" || k == "traceId" || k in Keys(extraMeta)
  {
    var base := MetaBase(traceId, now, generated);
    SpreadKeepsBaseKeys(base, extraMeta);
    SpreadKeys(base, extraMeta);
    Spread(base, extraMeta)
  }

  lemma SpreadKeys(base: seq<Field>, extra: seq<Field>)
    ensures forall k :: k in Keys(Spread(base, extra)) <==> k in Keys(base) || k in Keys(extra)
  {
    forall k ensures k in Keys(Spread(base, extra)) <==> k in Keys(base) || k in Keys(extra) {
      SpreadKeySet(base, extra, k);
    }
  }

  /** What each key of the meta reads: a key of the extra meta reads its value there
      (overriding `timestamp` and `traceId` too); otherwise `timestamp` is the ISO
      string of now, `traceId` the given one or the generated one, and any other key
      is absent. */
  lemma BuildMetaLookup(traceId: Option<string>, extraMeta: seq<Field>, now: int, generated: string, k: string)
    requires DistinctKeys(extraMeta)
    ensures Lookup(BuildMeta(traceId, extraMeta, now, generated), k)
            == if k in Keys(extraMeta) then Lookup(extraMeta, k)
               else if k == "timestamp" then JsString(DateUtil.ToIsoString(now))
               else if k == "traceId" then JsString(if traceId.Some? then traceId.value else generated)
               else JsUndefined
  {
    var base := MetaBase(traceId, now, generated);
    SpreadLookup(base, extraMeta, k);
    LookupDistinct(base, 0);
    LookupDistinct(base, 1);
  }

  // ---------------------------------------------------------------------------
  // Pagination arithmetic

  /** A JavaScript number as the division can produce it: finite (the operands are
      whole numbers here), infinite, or `NaN`. */
  datatype Num = Finite(n: int) | PosInfinity | NegInfinity | NaN

  /** `Math.ceil(a / b)`: the least whole number not below the quotient; dividing by
      zero gives `Infinity`, `-Infinity` or `NaN` by the sign of `a`. */
  function CeilDiv(a: int, b: int): (r: Num)
    ensures b != 0 <==> r.Finite?
    ensures b > 0 ==> (r.n - 1) * b < a <= r.n * b
    ensures b < 0 ==> r.n * b <= a < (r.n - 1) * b
    ensures b == 0 ==> r == (if a > 0 then PosInfinity else if a < 0 then NegInfinity else NaN)
  {
    if b > 0 then
      var q := (-a) / b;
      assert q * b <= -a < q * b + b;
      Finite(-q)
    else if b < 0 then
      var q := a / (-b);
      assert q * (-b) <= a < q * (-b) - b;
      Finite(-q)
    else if a > 0 then PosInfinity
    else if a < 0 then NegInfinity
    else NaN
  }

  /** `x < y` for a whole number `x`. */
  predicate Less(x: int, y: Num)
  {
    match y
    case Finite(n) => x < n
    case PosInfinity => true
    case NegInfinity => false
    case NaN => false
  }

  datatype PaginationMeta = PaginationMeta(page: int, limit: int, totalItems: int, totalPages: Num,
                                           hasNextPage: bool, hasPreviousPage: bool)

  /** The `pagination` object of `paginated`: the three inputs copied, the page count,
      and whether pages follow or precede. For a positive limit there is a next page
      exactly when the items before the end of this page fall short of the total, and
      the page count is the fewest pages of `limit` items that hold every item. */
  function Pagination(page: int, limit: int, totalItems: int): (p: PaginationMeta)
    ensures p.page == page && p.limit == limit && p.totalItems == totalItems
    ensures p.hasPreviousPage <==> page > 1
    ensures limit > 0 ==> p.totalPages.Finite?
                          && (p.totalPages.n - 1) * limit < totalItems <= p.totalPages.n * limit
    ensures limit > 0 ==> (p.hasNextPage <==> page * limit < totalItems)
    ensures limit == 0 ==> (p.hasNextPage <==> totalItems > 0)
    ensures limit < 0 ==> (p.hasNextPage <==> page * limit > totalItems)
  {
    var totalPages := CeilDiv(totalItems, limit);
    NextPageByItems(page, limit, totalItems, totalPages);
    PaginationMeta(page, limit, totalItems, totalPages, Less(page, totalPages), page > 1)
  }

  /** With `t` the ceiling of `total / limit`, a page lies before the last one exactly
      when it ends before the last item; a negative limit turns the comparison of
      products around. */
  lemma NextPageByItems(page: int, limit: int, total: int, pages: Num)
    requires pages == CeilDiv(total, limit)
    ensures limit > 0 ==> (Less(page, pages) <==> page * limit < total)
    ensures limit < 0 ==> (Less(page, pages) <==> page * limit > total)
  {
    if limit > 0 {
      var t := pages.n;
      if page < t {
        MulMonotone(page, t - 1, limit);
      } else {
        MulMonotone(t, page, limit);
      }
    } else if limit < 0 {
      var t := pages.n;
      if page < t {
        MulAntitone(page, t - 1, limit);
      } else {
        MulAntitone(t, page, limit);
      }
    }
  }

  lemma MulAntitone(x: int, y: int, k: int)
    requires x <= y && k < 0
    ensures x * k >= y * k
  {
    assert x * k - y * k == (y - x) * -k;
  }

  lemma MulMonotone(x: int, y: int, k: int)
    requires x <= y && k > 0
    ensures x * k <= y * k
  {
    assert y * k - x * k == (y - x) * k;
  }

  /** For a positive limit and a non-negative total, there are no pages for no items,
      the count is never negative, and exactly the pages from 1 to `totalPages - 1`
      have a next page. */
  lemma PageCountLaws(page: int, limit: int, totalItems: int)
    requires limit > 0 && totalItems >= 0
    ensures var p := Pagination(page, limit, totalItems);
            p.totalPages.n >= 0
            && (totalItems == 0 <==> p.totalPages.n == 0)
            && (p.hasNextPage <==> page < p.totalPages.n)
  {
    var p := Pagination(page, limit, totalItems);
    var t := p.totalPages.n;
    if t < 0 {
      MulMonotone(t, -1, limit);
    }
    if totalItems == 0 && t > 0 {
      MulMonotone(1, t - 1 + 1, limit);
      MulMonotone(0, t - 1, limit);
    }
    if t == 0 {
      assert t * limit == 0;
    }
    NextPageByItems(page, limit, totalItems, p.totalPages);
  }

  /** A page count of a positive limit, as `JSON.stringify` writes the
      `pagination` object; `Infinity` and `NaN` (from a limit of 0) become `null`. */
  function NumValue(x: Num): (v: JsValue)
    ensures x.Finite? ==> v == JsNumber(x.n)
    ensures !x.Finite? ==> v == JsNull
  {
    if x.Finite? then JsNumber(x.n) else JsNull
  }

  function PaginationValue(p: PaginationMeta): (v: JsValue)
    ensures v.JsObject? && DistinctKeys(v.fields)
  {
    JsObject([Field("page", JsNumber(p.page)), Field("limit", JsNumber(p.limit)),
              Field("totalItems", JsNumber(p.totalItems)), Field("totalPages", NumValue(p.totalPages)),
              Field("hasNextPage", JsBool(p.hasNextPage)), Field("hasPreviousPage", JsBool(p.hasPreviousPage))])
  }

  // ---------------------------------------------------------------------------
  // Envelopes

  datatype ErrorDetail = ErrorDetail(code: string, message: string, httpStatus: int, details: JsValue)

  /** `ApiSuccessResponse` (`success: true`) or `ApiErrorResponse` (`success: false`);
      the latter's top-level `message` is `errorMessage`. */
  datatype ApiResponse =
    | SuccessResponse(message: Option<string>, data: JsValue, meta: seq<Field>)
    | ErrorResponse(errorMessage: string, error: ErrorDetail, meta: seq<Field>)

  /** The `success` field. */
  predicate SuccessFlag(r: ApiResponse)
  {
    r.SuccessResponse?
  }

  datatype SuccessParams = SuccessParams(data: JsValue, message: Option<string>, traceId: Option<string>,
                                         meta: seq<Field>)

  datatype PaginatedParams = PaginatedParams(data: JsValue, page: int, limit: int, totalItems: int,
                                             message: Option<string>, traceId: Option<string>,
                                             meta: seq<Field>)

  datatype ErrorParams = ErrorParams(code: string, message: string, httpStatus: int,
                                     traceId: Option<string>, details: JsValue, meta: seq<Field>)

  /** `success`: a successful envelope that carries the data and message unchanged and
      the meta built from the trace id and the extra meta. */
  function Success(params: SuccessParams, now: int, generated: string): (r: ApiResponse)
    ensures SuccessFlag(r) && r.data == params.data && r.message == params.message
    ensures r.meta == BuildMeta(params.traceId, params.meta, now, generated)
    ensures DistinctKeys(params.meta) ==>
              Lookup(r.meta, "traceId")
              == if "traceId" in Keys(params.meta) then Lookup(params.meta, "traceId")
                 else JsString(if params.traceId.Some? then params.traceId.value else generated)
  {
    var m := BuildMeta(params.traceId, params.meta, now, generated);
    if DistinctKeys(params.meta) then
      BuildMetaLookup(params.traceId, params.meta, now, generated, "traceId");
      SuccessResponse(params.message, params.data, m)
    else SuccessResponse(params.message, params.data, m)
  }

  /** `{ ...params.meta, pagination }`: the computed pagination replaces any given. */
  function PaginatedExtra(meta: seq<Field>, pagination: PaginationMeta): (e: seq<Field>)
    ensures DistinctKeys(e)
    ensures Lookup(e, "pagination") == PaginationValue(pagination)
    ensures forall k :: k != "pagination" ==> Lookup(e, k) == Lookup(Spread([], meta), k)
    ensures forall k :: k in Keys(e) <==> k == "pagination" || k in Keys(meta)
  {
    var copy := Spread([], meta);
    SpreadKeys([], meta);
    SpreadKeys(copy, [Field("pagination", PaginationValue(pagination))]);
    assert Spread(copy, [Field("pagination", PaginationValue(pagination))])
           == Assign(copy, "pagination", PaginationValue(pagination));
    AssignLookup(copy, "pagination", PaginationValue(pagination));
    Spread(copy, [Field("pagination", PaginationValue(pagination))])
  }

  /** `paginated`: a successful envelope whose meta holds the computed pagination,
      whatever `params.meta` said about it, and otherwise the given meta fields. */
  function Paginated(params: PaginatedParams, now: int, generated: string): (r: ApiResponse)
    ensures SuccessFlag(r) && r.data == params.data && r.message == params.message
    ensures r.meta == BuildMeta(params.traceId,
                                PaginatedExtra(params.meta, Pagination(params.page, params.limit, params.totalItems)),
                                now, generated)
    ensures Lookup(r.meta, "pagination")
            == PaginationValue(Pagination(params.page, params.limit, params.totalItems))
  {
    var pagination := Pagination(params.page, params.limit, params.totalItems);
    var extra := PaginatedExtra(params.meta, pagination);
    BuildMetaLookup(params.traceId, extra, now, generated, "pagination");
    SuccessResponse(params.message, params.data, BuildMeta(params.traceId, extra, now, generated))
  }

  /** Apart from `pagination`, the meta of `paginated` reads exactly what the meta of
      `success` reads for the same trace id and extra meta. */
  lemma PaginatedMetaAsSuccess(params: PaginatedParams, now: int, generated: string, k: string)
    requires DistinctKeys(params.meta) && k != "pagination"
    ensures Lookup(Paginated(params, now, generated).meta, k)
            == Lookup(Success(SuccessParams(params.data, params.message, params.traceId, params.meta),
                              now, generated).meta, k)
  {
    var pagination := Pagination(params.page, params.limit, params.totalItems);
    var extra := PaginatedExtra(params.meta, pagination);
    BuildMetaLookup(params.traceId, extra, now, generated, k);
    BuildMetaLookup(params.traceId, params.meta, now, generated, k);
    SpreadLookup([], params.meta, k);
  }

  /** `error`: a failed envelope whose error detail repeats the top-level message and
      carries the code, status and details unchanged, with the meta built from the
      trace id and the extra meta. */
  function Error(params: ErrorParams, now: int, generated: string): (r: ApiResponse)
    ensures !SuccessFlag(r)
    ensures r.meta == BuildMeta(params.traceId, params.meta, now, generated)
    ensures r.errorMessage == params.message && r.error.message == r.errorMessage
    ensures r.error == ErrorDetail(params.code, params.message, params.httpStatus, params.details)
  {
    ErrorResponse(params.message, ErrorDetail(params.code, params.message, params.httpStatus, params.details),
                  BuildMeta(params.traceId, params.meta, now, generated))
  }
}
