/**
 * The helpers every HTTP handler of internal/delivery/http shares: the
 * status codes they answer with, the numeric path id and the pagination
 * query parameters. A response is reduced to its status code and to the
 * use-case call the handler made, if any; bodies and messages are JSON
 * encoding and are not modelled.
 */
module HttpHelpers {
  import opened Wrappers
  import Decimal

  const StatusOK := 200
  const StatusCreated := 201
  const StatusBadRequest := 400
  const StatusUnauthorized := 401
  const StatusForbidden := 403
  const StatusNotFound := 404
  const StatusInternalServerError := 500

  /** What a handler did: the status it wrote and the use-case call it made. */
  datatype Response<C> = Response(status: int, call: Option<C>)

  /** The route variables gorilla/mux extracted from the path. */
  type PathVars = map<string, string>

  /**
   * getIDFromPath: the variable (the empty string when it is missing)
   * through strconv.ParseInt(_, 10, 64); the error result is None.
   */
  function GetIDFromPath(vars: PathVars, key: string): (r: Option<int>)
    ensures r.Some? ==> key in vars && Decimal.MinInt64 <= r.value <= Decimal.MaxInt64
  {
    Decimal.ParseInt(if key in vars then vars[key] else "")
  }

  /** A missing variable is an invalid id. */
  lemma MissingIDRejected(vars: PathVars, key: string)
    requires key !in vars
    ensures GetIDFromPath(vars, key).None?
  {
  }

  /** Every int64 written in decimal is read back as itself. */
  lemma PathIDRoundTrip(vars: PathVars, key: string, id: int)
    requires Decimal.MinInt64 <= id <= Decimal.MaxInt64
    ensures GetIDFromPath(vars[key := Decimal.IntToString(id)], key) == Some(id)
  {
    Decimal.ParseFormatRoundTrip(id);
  }

  const DefaultLimit := 20
  const MaxLimit := 100
  const DefaultOffset := 0

  /**
   * getPaginationParams over the "limit" and "offset" query values (the
   * empty string when absent): a limit is taken when it parses and lies
   * in 1..100, an offset when it parses and is not negative; otherwise
   * the defaults 20 and 0 stay.
   */
  function GetPaginationParams(limitStr: string, offsetStr: string): (r: (int, int))
    ensures 1 <= r.0 <= MaxLimit && 0 <= r.1
    ensures limitStr == "" ==> r.0 == DefaultLimit
    ensures offsetStr == "" ==> r.1 == DefaultOffset
    ensures r.0 != DefaultLimit ==> Decimal.ParseInt(limitStr) == Some(r.0)
    ensures r.1 != DefaultOffset ==> Decimal.ParseInt(offsetStr) == Some(r.1)
    ensures forall l :: Decimal.ParseInt(limitStr) == Some(l) && 1 <= l <= MaxLimit ==> r.0 == l
    ensures forall o :: Decimal.ParseInt(offsetStr) == Some(o) && 0 <= o ==> r.1 == o
  {
    var limit :=
      if limitStr != "" then
        match Decimal.ParseInt(limitStr)
        case Some(l) => if l > 0 && l <= MaxLimit then l else DefaultLimit
        case None => DefaultLimit
      else DefaultLimit;
    var offset :=
      if offsetStr != "" then
        match Decimal.ParseInt(offsetStr)
        case Some(o) => if o >= 0 then o else DefaultOffset
        case None => DefaultOffset
      else DefaultOffset;
    (limit, offset)
  }

  /** Any limit in range and any int64 offset survive being sent as decimal text. */
  lemma PaginationRoundTrip(limit: int, offset: int)
    requires 1 <= limit <= MaxLimit && 0 <= offset <= Decimal.MaxInt64
    ensures GetPaginationParams(Decimal.IntToString(limit), Decimal.IntToString(offset)) == (limit, offset)
  {
    Decimal.ParseFormatRoundTrip(limit);
    Decimal.ParseFormatRoundTrip(offset);
  }

  /** Out-of-range limits and negative offsets fall back to the defaults rather than being clamped. */
  lemma PaginationOutOfRange()
    ensures GetPaginationParams("0", "-1") == (DefaultLimit, DefaultOffset)
    ensures GetPaginationParams("101", "x") == (DefaultLimit, DefaultOffset)
    ensures GetPaginationParams("100", "0") == (100, 0)
  {
    assert Decimal.ParseInt("0") == Some(0) by { Decimal.ParseFormatRoundTrip(0); }
    assert Decimal.ParseInt("-1") == Some(-1) by { Decimal.ParseFormatRoundTrip(-1); }
    assert Decimal.ParseInt("101") == Some(101) by {
      assert Decimal.NatToString(10) == "10";
      assert Decimal.IntToString(101) == "101";
      Decimal.ParseFormatRoundTrip(101);
    }
    assert Decimal.ParseInt("100") == Some(100) by {
      assert Decimal.NatToString(10) == "10";
      assert Decimal.IntToString(100) == "100";
      Decimal.ParseFormatRoundTrip(100);
    }
  }
}
