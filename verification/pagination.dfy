/**
 * Page arithmetic and sort-parameter validation of the list endpoints
 * `get_words` and `get_study_sessions` (lang-portal/backend/main.py).
 */
module Pagination {
  import opened Wrappers

  /** Python's `a // b`: division rounding toward negative infinity. */
  function FloorDiv(a: int, b: int): (q: int)
    requires b != 0
    ensures b > 0 ==> q * b <= a < q * b + b
    ensures b < 0 ==> q * b + b < a <= q * b
  {
    if b > 0 then a / b else (-a) / (-b)
  }

  /**
   * The OFFSET of page `page` (pages are numbered from 1): zero for the first
   * page, negative only before it, and at least one full page after it.
   */
  function Offset(page: int, pageSize: int): (r: int)
    ensures page == 1 ==> r == 0
    ensures pageSize > 0 ==> (r >= 0 <==> page >= 1)
    ensures pageSize > 0 ==> (r >= pageSize <==> page >= 2)
  {
    var r := (page - 1) * pageSize;
    assert pageSize > 0 ==> (r >= 0 <==> page >= 1) && (r >= pageSize <==> page >= 2) by {
      if pageSize > 0 {
        if page >= 2 {
          MultiplyMonotone(1, page - 1, pageSize);
        } else {
          MultiplyMonotone(page - 1, 0, pageSize);
        }
        if page < 1 {
          MultiplyMonotone(page - 1, -1, pageSize);
        }
      }
    }
    r
  }

  /** Consecutive pages start `pageSize` rows apart, the first at row 0. */
  lemma OffsetsStepByPageSize(page: int, pageSize: int)
    ensures Offset(1, pageSize) == 0
    ensures Offset(page + 1, pageSize) == Offset(page, pageSize) + pageSize
  {
  }

  /** A page size of zero makes the page count raise ZeroDivisionError. */
  datatype PageError = ZeroDivision

  /** `(total_count + page_size - 1) // page_size`. */
  function TotalPages(total: nat, pageSize: int): (r: Result<int, PageError>)
    ensures r.Failure? <==> pageSize == 0
    ensures pageSize > 0 ==> r.Success? && r.value >= 0
    ensures pageSize > 0 ==> r.value * pageSize >= total
    ensures pageSize > 0 && total > 0 ==> (r.value - 1) * pageSize < total
    ensures pageSize > 0 && total == 0 ==> r.value == 0
  {
    if pageSize == 0 then Failure(ZeroDivision)
    else Success(FloorDiv(total + pageSize - 1, pageSize))
  }

  /** With a positive page size every row lies on exactly one page in range. */
  lemma EveryRowOnOnePage(total: nat, pageSize: int, row: nat)
    requires pageSize > 0
    requires row < total
    ensures var page := row / pageSize + 1;
            1 <= page <= TotalPages(total, pageSize).value
            && Offset(page, pageSize) <= row < Offset(page, pageSize) + pageSize
    ensures forall p :: Offset(p, pageSize) <= row < Offset(p, pageSize) + pageSize ==> p == row / pageSize + 1
  {
    var q, page := row / pageSize, row / pageSize + 1;
    var n := TotalPages(total, pageSize).value;
    assert q * pageSize <= row < q * pageSize + pageSize;
    assert Offset(page, pageSize) == q * pageSize;
    assert page <= n by {
      if n < page {
        MultiplyMonotone(n, q, pageSize);
      }
    }
    forall p | Offset(p, pageSize) <= row < Offset(p, pageSize) + pageSize
      ensures p == page
    {
      var q := p - 1;
      assert q * pageSize <= row < q * pageSize + pageSize;
      DivisionUnique(row, pageSize, q);
    }
  }

  /** The quotient is the only multiple count that brackets the dividend. */
  lemma DivisionUnique(a: nat, b: int, q: int)
    requires b > 0
    requires q * b <= a < q * b + b
    ensures q == a / b
  {
    var d := a / b;
    assert d * b <= a < d * b + b;
    if q < d {
      MultiplyMonotone(q + 1, d, b);
    } else if d < q {
      MultiplyMonotone(d + 1, q, b);
    }
  }

  lemma MultiplyMonotone(x: int, y: int, b: int)
    requires x <= y && b > 0
    ensures x * b <= y * b
  {
  }

  /** The columns `get_words` may order by. */
  const WordSortColumns: seq<string> :=
    ["word_id", "word_hindi_text", "word_english_text", "word_meaning", "word_part_of_speech"]

  /**
   * The ORDER BY column of `get_words`: none for a missing or empty `sort_by`
   * (both are falsy in Python), the column itself when whitelisted, and
   * `word_hindi_text` otherwise.
   */
  function WordSortColumn(sortBy: Option<string>): (r: Option<string>)
    ensures r.None? <==> sortBy.None? || sortBy.value == ""
    ensures r.Some? ==> r.value in WordSortColumns
    ensures r.Some? && sortBy.value in WordSortColumns ==> r.value == sortBy.value
    ensures r.Some? && sortBy.value !in WordSortColumns ==> r.value == "word_hindi_text"
  {
    match sortBy
    case None => None
    case Some(s) =>
      if s == "" then None
      else if s !in WordSortColumns then Some("word_hindi_text")
      else Some(s)
  }

  /** Python's `str()` of an optional string, as an f-string renders it. */
  function PyStr(s: Option<string>): string {
    match s
    case None => "None"
    case Some(v) => v
  }

  /**
   * The ORDER BY clause appended to the `get_words` query. The sort order is
   * spliced in as given: only the column is validated.
   */
  function WordsOrderClause(sortBy: Option<string>, sortOrder: Option<string>): (r: string)
    ensures WordSortColumn(sortBy).None? ==> r == ""
    ensures WordSortColumn(sortBy).Some? ==>
              var prefix := " ORDER BY " + WordSortColumn(sortBy).value + " ";
              |prefix| <= |r| && r[..|prefix|] == prefix && r[|prefix|..] == PyStr(sortOrder)
  {
    match WordSortColumn(sortBy)
    case None => ""
    case Some(col) => " ORDER BY " + col + " " + PyStr(sortOrder)
  }

  /** The columns `get_study_sessions` may order by. */
  const SessionSortFields: seq<string> :=
    ["study_session_id", "start_time", "end_time", "group_name", "activity_name"]

  /** ASCII lower-casing of one character. */
  function LowerChar(c: char): char {
    if 'A' <= c <= 'Z' then (c as int + 32) as char else c
  }

  /** `str.lower()` on the ASCII range. */
  function Lower(s: string): (r: string)
    ensures |r| == |s|
  {
    seq(|s|, i requires 0 <= i < |s| => LowerChar(s[i]))
  }

  predicate ValidOrder(order: string) {
    Lower(order) == "asc" || Lower(order) == "desc"
  }

  /**
   * The validated `(sort_by, order)` of `get_study_sessions`: an unknown field
   * falls back to `start_time`, an order whose lower case is neither `asc` nor
   * `desc` falls back to `desc`; valid values are kept as given, case included.
   */
  function SessionSort(sortBy: string, order: string): (r: (string, string))
    ensures r.0 in SessionSortFields && ValidOrder(r.1)
    ensures sortBy in SessionSortFields ==> r.0 == sortBy
    ensures sortBy !in SessionSortFields ==> r.0 == "start_time"
    ensures ValidOrder(order) ==> r.1 == order
    ensures !ValidOrder(order) ==> r.1 == "desc"
  {
    var field := if sortBy !in SessionSortFields then "start_time" else sortBy;
    var dir := if !ValidOrder(order) then "desc" else order;
    assert Lower("desc") == "desc";
    (field, dir)
  }

  /** Validating twice is validating once. */
  lemma SessionSortIdempotent(sortBy: string, order: string)
    ensures var r := SessionSort(sortBy, order); SessionSort(r.0, r.1) == r
  {
  }

  /** Upper-case spellings of a valid order are accepted unchanged. */
  lemma UpperCaseOrderKept()
    ensures SessionSort("group_name", "ASC") == ("group_name", "ASC")
    ensures SessionSort("title", "descending") == ("start_time", "desc")
  {
    assert Lower("ASC") == "asc";
    assert Lower("descending") != "asc" && Lower("descending") != "desc" by {
      assert |Lower("descending")| == 10;
    }
  }
}
