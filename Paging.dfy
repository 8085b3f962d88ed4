/// Integer paging of the recommended-feed and text-search views and the
/// `image_urls` split of the product-detail view (app_aliexpress/views.py).
/// The remote calls and the rest of each reply are left to their callers: these
/// functions take the query parameter and the reply fields they read.
module Paging {
  import opened PyValues
  import Tokens

  const RECOMMEND_PAGE_SIZE := 50
  const SEARCH_PAGE_SIZE := 20

  /** `(total + page_size - 1) // page_size`: the number of pages of `page_size`
      records needed to hold `total` records (Python's `//` floors, as `/` does
      here for a positive divisor). */
  function TotalPages(total: int, pageSize: int): (pages: int)
    requires pageSize > 0
    ensures (pages - 1) * pageSize < total <= pages * pageSize
  {
    var q := (total + pageSize - 1) / pageSize;
    assert q * pageSize + (total + pageSize - 1) % pageSize == total + pageSize - 1;
    q
  }

  /** No records, no pages. */
  lemma NoRecordsNoPages(total: int, pageSize: int)
    requires pageSize > 0 && total <= 0
    ensures TotalPages(total, pageSize) <= 0
  {
    var pages := TotalPages(total, pageSize);
    assert (pages - 1) * pageSize < 0;
  }

  /** `int(request.GET.get("page", 1))` */
  function PageNumber(param: Option<string>): IntConversion {
    match param
    case None => Converted(1)
    case Some(s) => ToInt(JStr(s))
  }

  /** `int(reply.get(key, 0))` for an optional reply field. */
  function CountOf(field: Option<Json>): IntConversion {
    match field
    case None => Converted(0)
    case Some(v) => ToInt(v)
  }

  /** What the listing views render or return. */
  datatype PageView =
    | ServerError(raised: Exception)
    | Redirect(path: string)
    | PageError(message: string)
    | Page(current: int, totalPages: int, totalResults: int, isFinished: bool)

  /** The paging of `recommend_feed_aliexpress`: the page parameter is converted
      before the `try` (a ValueError escapes), the record count inside it (a
      ValueError there goes to the dashboard); the page must lie in `1..total_pages`.
      `isFinished` is the reply's own `is_finished` flag, passed through. */
  function RecommendPaging(pageParam: Option<string>, recordCount: Option<Json>, replyFinished: bool): (v: PageView)
    ensures PageNumber(pageParam).Raised? ==> v == ServerError(ValueError)
    // the record count failing inside the `try`: ValueError goes to the dashboard, TypeError escapes
    ensures PageNumber(pageParam).Converted? && CountOf(recordCount).Raised? ==>
              v == if CountOf(recordCount).error == ValueError then Redirect(Tokens.DASHBOARD_PATH)
                   else ServerError(CountOf(recordCount).error)
    ensures v.Page? <==>
              && PageNumber(pageParam).Converted? && CountOf(recordCount).Converted?
              && 1 <= PageNumber(pageParam).value
              && (PageNumber(pageParam).value - 1) * RECOMMEND_PAGE_SIZE < CountOf(recordCount).value
    ensures v.Page? ==> v.current == PageNumber(pageParam).value && v.totalResults == CountOf(recordCount).value
                        && v.totalPages == TotalPages(v.totalResults, RECOMMEND_PAGE_SIZE)
    // the reply's own `is_finished` flag is rendered as it came
    ensures v.Page? ==> v.isFinished == replyFinished
    // both numbers convert but the page is out of range: the error page is rendered
    ensures PageNumber(pageParam).Converted? && CountOf(recordCount).Converted? && !v.Page? ==> v.PageError?
    ensures v.PageError? ==>
              CountOf(recordCount).Converted? &&
              v.message == "Invalid page number. Valid range: 1 to "
                           + IntToStr(TotalPages(CountOf(recordCount).value, RECOMMEND_PAGE_SIZE))
  {
    match PageNumber(pageParam)
    case Raised(e) => ServerError(e)
    case Converted(pageNo) =>
      match CountOf(recordCount)
      case Raised(ValueError) => Redirect(Tokens.DASHBOARD_PATH)
      case Raised(e) => ServerError(e)
      case Converted(totalRecordCount) =>
        var totalPages := TotalPages(totalRecordCount, RECOMMEND_PAGE_SIZE);
        if pageNo < 1 || pageNo > totalPages then
          PageError("Invalid page number. Valid range: 1 to " + IntToStr(totalPages))
        else
          Page(pageNo, totalPages, totalRecordCount, replyFinished)
  }

  /** With zero records every page number is refused. */
  lemma NoRecordsRejectsEveryPage(pageParam: Option<string>, replyFinished: bool)
    ensures !RecommendPaging(pageParam, None, replyFinished).Page?
    ensures !RecommendPaging(pageParam, Some(JInt(0)), replyFinished).Page?
  {
  }

  /** The paging of `text_search_aliexpress`: the search is finished once the
      current page reaches the last page. */
  function SearchPaging(pageParam: Option<string>, totalCount: Option<Json>): (v: PageView)
    ensures PageNumber(pageParam).Raised? ==> v == ServerError(ValueError)
    // the total count failing inside the `try`: ValueError goes to the dashboard, TypeError escapes
    ensures PageNumber(pageParam).Converted? && CountOf(totalCount).Raised? ==>
              v == if CountOf(totalCount).error == ValueError then Redirect(Tokens.DASHBOARD_PATH)
                   else ServerError(CountOf(totalCount).error)
    ensures v.Page? <==> PageNumber(pageParam).Converted? && CountOf(totalCount).Converted?
    ensures v.Page? ==> v.current == PageNumber(pageParam).value && v.totalResults == CountOf(totalCount).value
                        && v.totalPages == TotalPages(v.totalResults, SEARCH_PAGE_SIZE)
    // finished exactly when no record lies beyond the current page
    ensures v.Page? ==> (v.isFinished <==> v.totalResults <= v.current * SEARCH_PAGE_SIZE)
    ensures !v.PageError?
  {
    match PageNumber(pageParam)
    case Raised(e) => ServerError(e)
    case Converted(currentPage) =>
      match CountOf(totalCount)
      case Raised(ValueError) => Redirect(Tokens.DASHBOARD_PATH)
      case Raised(e) => ServerError(e)
      case Converted(count) =>
        var totalPages := TotalPages(count, SEARCH_PAGE_SIZE);
        var isFinished := currentPage >= totalPages;
        assert isFinished <==> count <= currentPage * SEARCH_PAGE_SIZE by {
          if currentPage >= totalPages {
            assert currentPage * SEARCH_PAGE_SIZE >= totalPages * SEARCH_PAGE_SIZE;
          } else {
            assert currentPage * SEARCH_PAGE_SIZE <= (totalPages - 1) * SEARCH_PAGE_SIZE;
          }
        }
        Page(currentPage, totalPages, count, isFinished)
  }

  // ---------------------------------------------------------------------
  // image_urls.split(";")
  // ---------------------------------------------------------------------

  /** `s.split(sep)` with an explicit separator: every piece between separators, empty ones included. */
  function Split(s: string, sep: char): (parts: seq<string>)
    ensures |parts| >= 1
    ensures forall i :: 0 <= i < |parts| ==> sep !in parts[i]
  {
    if s == [] then [""]
    else
      var rest := Split(s[1..], sep);
      if s[0] == sep then [""] + rest
      else [[s[0]] + rest[0]] + rest[1..]
  }

  /** `sep.join(parts)` */
  function Join(parts: seq<string>, sep: char): string
    requires |parts| >= 1
  {
    if |parts| == 1 then parts[0] else parts[0] + [sep] + Join(parts[1..], sep)
  }

  lemma JoinWithLongerHead(c: char, parts: seq<string>, sep: char)
    requires |parts| >= 1
    ensures Join([[c] + parts[0]] + parts[1..], sep) == [c] + Join(parts, sep)
  {
    var q := [[c] + parts[0]] + parts[1..];
    assert q[1..] == parts[1..];
  }

  /** Joining the pieces with the separator gives the string back. */
  lemma {:induction false} JoinSplit(s: string, sep: char)
    ensures Join(Split(s, sep), sep) == s
  {
    if s != [] {
      var rest := Split(s[1..], sep);
      JoinSplit(s[1..], sep);
      if s[0] == sep {
        assert ([""] + rest)[1..] == rest;
      } else {
        JoinWithLongerHead(s[0], rest, sep);
      }
      assert [s[0]] + s[1..] == s;
    }
  }

  /** Splitting a join of separator-free pieces gives the pieces back. */
  lemma {:induction false} SplitJoin(parts: seq<string>, sep: char)
    requires |parts| >= 1
    requires forall i :: 0 <= i < |parts| ==> sep !in parts[i]
    ensures Split(Join(parts, sep), sep) == parts
    decreases |parts|, |parts[0]|
  {
    var head := parts[0];
    if head == [] {
      if |parts| > 1 {
        var tail := Join(parts[1..], sep);
        assert Join(parts, sep) == [sep] + tail;
        assert ([sep] + tail)[1..] == tail;
        SplitJoin(parts[1..], sep);
        assert parts == [""] + parts[1..];
      }
    } else {
      var shorter := [head[1..]] + parts[1..];
      assert shorter[1..] == parts[1..];
      assert forall i :: 0 <= i < |shorter| ==> sep !in shorter[i] by {
        assert forall c :: c in head[1..] ==> c in head;
      }
      JoinWithLongerHead(head[0], shorter, sep);
      assert [head[0]] + head[1..] == head;
      assert [[head[0]] + shorter[0]] + shorter[1..] == parts;
      var joined := Join(parts, sep);
      assert joined == [head[0]] + Join(shorter, sep);
      assert joined[1..] == Join(shorter, sep);
      assert joined[0] == head[0] && head[0] != sep;
      SplitJoin(shorter, sep);
    }
  }

  /** Whether `t` occurs inside `s` (Python's `t in s` on strings). */
  predicate Contains(s: string, t: string) {
    if |s| < |t| then false
    else s[..|t|] == t || Contains(s[1..], t)
  }

  datatype ImageList = Urls(urls: seq<string>) | Failed(raised: Exception)

  /** `product["image_urls"]` as `product_detail_aliexpress` fills it in: the
      `;`-separated list under `ae_multimedia_info_dto`, or `[]` when it is absent.
      The `in` test and the `split` raise on values of other types. */
  function ImageUrls(product: map<string, Json>): (r: ImageList)
    ensures "ae_multimedia_info_dto" !in product ==> r == Urls([])
    ensures r.Urls? ==> forall i :: 0 <= i < |r.urls| ==> ';' !in r.urls[i]
    ensures "ae_multimedia_info_dto" in product && product["ae_multimedia_info_dto"].JObject? ==>
              var info := product["ae_multimedia_info_dto"].fields;
              && ("image_urls" in info && info["image_urls"].JStr? ==> r.Urls? && |r.urls| >= 1 && Join(r.urls, ';') == info["image_urls"].s)
              && ("image_urls" in info && !info["image_urls"].JStr? ==> r == Failed(AttributeError))
              && ("image_urls" !in info ==> r == Urls([]))
  {
    if "ae_multimedia_info_dto" !in product then Urls([])
    else
      match product["ae_multimedia_info_dto"]
      case JObject(info) =>
        if "image_urls" !in info then Urls([])
        else
          (match info["image_urls"]
           case JStr(s) => JoinSplit(s, ';'); Urls(Split(s, ';'))
           case _ => Failed(AttributeError))
      case JStr(text) => if Contains(text, "image_urls") then Failed(TypeError) else Urls([])
      case JArray(items) => if JStr("image_urls") in items then Failed(TypeError) else Urls([])
      case _ => Failed(TypeError)
  }
}
