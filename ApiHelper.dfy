/**
  A model of the `ApiHelper` class: the response envelope built by `output`
  when it is asked to return an array (rather than echo JSON), and the
  pagination block built by `pagination`.

  `output` decides what to do from the runtime kind of its first argument.
  Here the caller states that kind with a tag (`Primary`), and the second
  argument's kind with another (`Secondary`). The two static fields, the
  error-code table and the default page size, are only read; they are passed
  in as parameters, and the values the class ships with are the constants
  `ErrorCodeList` and `PAGESIZE`.
 */
module ApiHelper {

  import opened Wrappers
  import opened PhpRuntime

  // ---------------------------------------------------------------------------
  // Configuration: the two static fields
  // ---------------------------------------------------------------------------

  /** `$errorCodeList`: negative codes are server-side faults, positive codes
      business faults, 100x codes concern the user account. */
  const ErrorCodeList: map<int, string> := map[
    -1 := "未知错误",
    0 := "SUCCESS",
    1000 := "尚未登录，请先登录",
    1001 := "请填写账号和密码",
    1002 := "账号错误",
    1003 := "账号不存在",
    1004 := "密码错误",
    1005 := "密码错误",
    1006 := "手机号不存在"
  ]

  /** `$pagesize`: the default page size. */
  const PAGESIZE: int := 8

  /** What the rest of the model relies on in a code table: code 0 reads "SUCCESS". */
  predicate ValidCodeTable(codes: map<int, string>) {
    0 in codes && codes[0] == "SUCCESS"
  }

  lemma ShippedConfiguration()
    ensures ValidCodeTable(ErrorCodeList)
    ensures ErrorCodeList[1003] == "账号不存在"
    ensures PAGESIZE > 0
  {
  }

  // ---------------------------------------------------------------------------
  // output
  // ---------------------------------------------------------------------------

  /** The kind of `output`'s first argument. `Text` holds a string that is not
      numeric; an integer or an integer string is passed as `Code`. `Null` and
      `Flag` are the values that are neither numeric, array nor string. */
  datatype Primary<D> =
    | Code(n: int)
    | Payload(items: seq<D>)
    | Text(s: string)
    | Null
    | Flag(b: bool)

  /** The kind of `output`'s second argument: a message string (the default is
      `''`), an array (a pagination block), or `null`. */
  datatype Secondary<P> =
    | Str(s: string)
    | Arr(block: P)
    | Nil

  /** The value under `message`: a string, or, when an unknown code is given
      without a message, the code itself (an integer in the envelope). */
  datatype Message =
    | Said(text: string)
    | Numeric(code: int)

  /** The array `output` returns: `pagination` is an absent key unless `Some`. */
  datatype Envelope<D, P> = Envelope(code: int, message: Message, data: seq<D>, pagination: Option<P>)

  /** Whether the second argument counts as a caller-supplied message:
      `trim($errorMessage)` is truthy. `trim(null)` is `""`, and an array
      gives no usable string, so both count as no message. */
  predicate HasMessage<P>(secondary: Secondary<P>) {
    secondary.Str? && !Blank(secondary.s)
  }

  /** The message of an error envelope: the caller's message if there is one,
      else the table's entry for the code, else the code itself. */
  function ResolveMessage<P>(code: int, secondary: Secondary<P>, codes: map<int, string>): (m: Message)
    ensures secondary.Str? && !(AllTrimChars(secondary.s) || IsPaddedZero(secondary.s)) ==>
      m == Said(secondary.s)
    ensures !(secondary.Str? && !(AllTrimChars(secondary.s) || IsPaddedZero(secondary.s))) ==>
      m == if code in codes then Said(codes[code]) else Numeric(code)
  {
    BlankIff(if secondary.Str? then secondary.s else "");
    if HasMessage(secondary) then Said(secondary.s)
    else if code in codes then Said(codes[code])
    else Numeric(code)
  }

  /** `ApiHelper::output($errorCode, $errorMessage, $format)` with `$format`
      other than `'json'`. The code is stored before the `-1` substitution for
      code 0, which therefore never reaches the result. */
  function Output<D, P>(primary: Primary<D>, secondary: Secondary<P>, codes: map<int, string>): (r: Envelope<D, P>)
    ensures r.pagination.Some? <==> primary.Payload? && secondary.Arr?
    ensures r.pagination.Some? ==> r.pagination.value == secondary.block && r.code == 0
    ensures !primary.Payload? ==> r.data == []
    ensures r.code != 0 ==> r.data == [] && r.pagination.None?
    ensures primary.Code? ==> r.code == primary.n
    ensures primary.Null? ==> r.code == 0
    ensures primary.Flag? ==> r.code == BoolToInt(primary.b)
    decreases if primary.Null? || primary.Flag? then 1 else 0
  {
    match primary
    case Code(n) => Envelope(n, ResolveMessage(n, secondary, codes), [], None)
    case Payload(items) =>
      Envelope(0, Said("SUCCESS"), items, if secondary.Arr? then Some(secondary.block) else None)
    case Text(s) => Envelope(0, Said(s), [], None)
    case Null => Output(Code(0), secondary, codes)
    case Flag(b) => Output(Code(BoolToInt(b)), secondary, codes)
  }

  /** A numeric code with a non-blank message: the message is kept verbatim. */
  lemma OutputCodeWithMessage<D, P>(n: int, msg: string, codes: map<int, string>)
    requires !Blank(msg)
    ensures Output<D, P>(Code(n), Str(msg), codes) == Envelope(n, Said(msg), [], None)
  {
  }

  /** A numeric code whose message is blank (or absent, or not a string): the
      table's message, or the code itself for a code not in the table. */
  lemma OutputCodeWithoutMessage<D, P>(n: int, secondary: Secondary<P>, codes: map<int, string>)
    requires !HasMessage(secondary)
    ensures n in codes ==> Output<D, P>(Code(n), secondary, codes) == Envelope(n, Said(codes[n]), [], None)
    ensures n !in codes ==> Output<D, P>(Code(n), secondary, codes) == Envelope(n, Numeric(n), [], None)
  {
  }

  /** Blank messages, by their shape: whitespace only, or a padded `0`. */
  lemma {:induction false} OutputCodeBlankMessage<D, P>(n: int, msg: string, codes: map<int, string>)
    requires AllTrimChars(msg) || IsPaddedZero(msg)
    ensures Output<D, P>(Code(n), Str(msg), codes).message
         == if n in codes then Said(codes[n]) else Numeric(n)
  {
    BlankIff(msg);
  }

  /** Code 0 with no message is a success envelope: code 0, "SUCCESS". */
  lemma OutputZeroCode<D, P>(secondary: Secondary<P>, codes: map<int, string>)
    requires ValidCodeTable(codes) && !HasMessage(secondary)
    ensures Output<D, P>(Code(0), secondary, codes) == Envelope(0, Said("SUCCESS"), [], None)
  {
  }

  /** An array payload: success, with the payload as data and the second
      argument attached unchanged as `pagination` exactly when it is an array. */
  lemma OutputPayload<D, P>(items: seq<D>, secondary: Secondary<P>, codes: map<int, string>)
    ensures var r := Output(Payload(items), secondary, codes);
      r.code == 0 && r.message == Said("SUCCESS") && r.data == items &&
      (r.pagination.Some? <==> secondary.Arr?) &&
      (secondary.Arr? ==> r.pagination == Some(secondary.block))
  {
  }

  /** A non-numeric string: success, with the string as the message. */
  lemma OutputText<D, P>(s: string, secondary: Secondary<P>, codes: map<int, string>)
    ensures Output<D, P>(Text(s), secondary, codes) == Envelope(0, Said(s), [], None)
  {
  }

  /** `null` and booleans go through `intval` and are treated as that code. */
  lemma OutputOther<D, P>(secondary: Secondary<P>, codes: map<int, string>, b: bool)
    ensures Output<D, P>(Null, secondary, codes) == Output(Code(0), secondary, codes)
    ensures Output<D, P>(Flag(b), secondary, codes) == Output(Code(if b then 1 else 0), secondary, codes)
  {
  }

  /** `null` and `false` with no message give the success envelope. */
  lemma {:induction false} OutputDefaultsSucceed<D, P>(secondary: Secondary<P>, codes: map<int, string>)
    requires ValidCodeTable(codes) && !HasMessage(secondary)
    ensures Output<D, P>(Null, secondary, codes) == Envelope(0, Said("SUCCESS"), [], None)
    ensures Output<D, P>(Flag(false), secondary, codes) == Envelope(0, Said("SUCCESS"), [], None)
  {
    OutputZeroCode<D, P>(secondary, codes);
    OutputOther<D, P>(secondary, codes, false);
  }

  /** `output()`: the defaults are code 0 and the message `''`. */
  lemma OutputNoArguments<D, P>(codes: map<int, string>)
    requires ValidCodeTable(codes)
    ensures Output<D, P>(Code(0), Str(""), codes) == Envelope(0, Said("SUCCESS"), [], None)
  {
    assert Trim("") == "";
  }

  /** A code envelope's message comes from exactly one of three places, and
      the caller's message wins whenever it is not blank. */
  lemma {:induction false} OutputMessageSource<D, P>(n: int, secondary: Secondary<P>, codes: map<int, string>)
    ensures var m := Output<D, P>(Code(n), secondary, codes).message;
      (secondary.Str? && m == Said(secondary.s) && !(AllTrimChars(secondary.s) || IsPaddedZero(secondary.s))) ||
      (!HasMessage(secondary) && n in codes && m == Said(codes[n])) ||
      (!HasMessage(secondary) && n !in codes && m == Numeric(n))
  {
    if secondary.Str? {
      BlankIff(secondary.s);
    }
  }

  /** `output(1003)` with the shipped table reads the entry for code 1003. */
  lemma OutputKnownCodeExample()
    ensures Output<int, int>(Code(1003), Str(""), ErrorCodeList) == Envelope(1003, Said("账号不存在"), [], None)
  {
    TrimOfTrimmed("");
    assert ErrorCodeList[1003] == "账号不存在";
    OutputCodeWithoutMessage<int, int>(1003, Str(""), ErrorCodeList);
  }

  /** `output(101)`: 101 is not in the shipped table, so it reads as itself. */
  lemma OutputUnknownCodeExample()
    ensures Output<int, int>(Code(101), Str(""), ErrorCodeList) == Envelope(101, Numeric(101), [], None)
  {
    TrimOfTrimmed("");
    assert 101 !in ErrorCodeList;
    OutputCodeWithoutMessage<int, int>(101, Str(""), ErrorCodeList);
  }

  /** `output(array('abc'))`: a success envelope around the payload. */
  lemma OutputPayloadExample()
    ensures Output<string, int>(Payload(["abc"]), Str(""), ErrorCodeList) == Envelope(0, Said("SUCCESS"), ["abc"], None)
  {
  }

  // ---------------------------------------------------------------------------
  // pagination
  // ---------------------------------------------------------------------------

  /** The array `pagination` returns; `more` is 1 or 0 as on the wire. */
  datatype PageBlock = PageBlock(
    totalRecord: int,
    page: int,
    pageSize: int,
    count: int,
    pageCount: int,
    more: int)

  /** `intval($x) > 0 ? intval($x) : 0` */
  function ClampNonNeg(x: int): (r: int)
    ensures r >= 0 && (x > 0 ==> r == x) && (x <= 0 ==> r == 0)
  {
    if x > 0 then x else 0
  }

  /** `ApiHelper::pagination($total_record, $page, $pagesize, $count)`, with the
      default page size given as `defaultPageSize`. */
  function Pagination(total: int, page: int, pageSize: int, count: int, defaultPageSize: int): (r: PageBlock)
    requires defaultPageSize > 0
    ensures r.totalRecord == ClampNonNeg(total)
    ensures r.pageSize == (if pageSize > 0 then pageSize else defaultPageSize) && r.pageSize > 0
    ensures r.page >= 1 && r.count >= 0 && r.pageCount >= 0 && (r.more == 0 || r.more == 1)
    ensures r.totalRecord == 0 ==> r.page == 1 && r.count == 0 && r.pageCount == 0 && r.more == 0
    ensures r.totalRecord > 0 ==>
      r.page == (if page > 0 then page else 1) && r.count == ClampNonNeg(count) &&
      r.pageCount >= 1 && (r.pageCount - 1) * r.pageSize < r.totalRecord <= r.pageCount * r.pageSize
    ensures r.more == 1 <==> (r.page - 1) * r.pageSize + r.count < r.totalRecord
  {
    var t := ClampNonNeg(total);
    var p := if page > 0 then page else 1;
    var ps := ClampNonNeg(pageSize);
    var c := ClampNonNeg(count);
    if t == 0 then
      PageBlock(0, 1, if ps > 0 then ps else defaultPageSize, 0, 0, 0)
    else
      var size := if ps > 0 then ps else defaultPageSize;
      var more := if t - (p - 1) * size > c then 1 else 0;
      PageBlock(t, p, size, c, CeilDiv(t, size), more)
  }

  /** With no records, the requested page and count are ignored: the block is
      that of `pagination(0, 0, pagesize, 0)`; with no page size either, it
      is `pagination(0)`, i.e. `pagination(0, 0, 0, 0)`. */
  lemma PaginationEmpty(total: int, page: int, pageSize: int, count: int, defaultPageSize: int)
    requires defaultPageSize > 0 && total <= 0
    ensures Pagination(total, page, pageSize, count, defaultPageSize) == Pagination(0, 0, pageSize, 0, defaultPageSize)
    ensures pageSize <= 0 ==>
      Pagination(total, page, pageSize, count, defaultPageSize) == PageBlock(0, 1, defaultPageSize, 0, 0, 0)
  {
  }

  /** The page count is the ceiling of total / page size, as an independent
      definition: any `q` with `(q - 1) * size < total <= q * size`. */
  lemma {:induction false} PaginationPageCountIsCeil(total: int, page: int, pageSize: int, count: int, defaultPageSize: int, q: int)
    requires defaultPageSize > 0
    requires var r := Pagination(total, page, pageSize, count, defaultPageSize);
      r.totalRecord > 0 && (q - 1) * r.pageSize < r.totalRecord <= q * r.pageSize
    ensures Pagination(total, page, pageSize, count, defaultPageSize).pageCount == q
  {
    var r := Pagination(total, page, pageSize, count, defaultPageSize);
    CeilDivUnique(r.totalRecord, r.pageSize, q);
  }

  /** A normalised block fed back into `pagination` comes out unchanged. */
  lemma PaginationIdempotent(total: int, page: int, pageSize: int, count: int, defaultPageSize: int)
    requires defaultPageSize > 0
    ensures var r := Pagination(total, page, pageSize, count, defaultPageSize);
      Pagination(r.totalRecord, r.page, r.pageSize, r.count, defaultPageSize) == r
  {
  }

  /** The number of records that page `page` (1-based) holds when `total`
      records are cut into pages of `size`. */
  function RecordsOnPage(total: int, page: int, size: int): (n: int)
    requires total >= 0 && page >= 1 && size > 0
    ensures 0 <= n <= size
    ensures n == 0 <==> (page - 1) * size >= total
  {
    var rest := total - (page - 1) * size;
    if rest <= 0 then 0 else if rest < size then rest else size
  }

  /** Multiplying by a positive number keeps the order. */
  lemma MulMono(a: int, b: int, k: int)
    requires a <= b && k > 0
    ensures a * k <= b * k
  {
    assert b * k - a * k == (b - a) * k;
  }

  /** The arithmetic behind PaginationMoreMeansLaterPage: with `pc` pages of
      `ps` for `t` records and `c` records on page `p`, records remain beyond
      page `p` exactly when `p` is not the last page. */
  lemma LaterPageArithmetic(t: int, p: int, ps: int, pc: int)
    requires t > 0 && p >= 1 && ps > 0
    requires (pc - 1) * ps < t <= pc * ps
    ensures t - (p - 1) * ps > RecordsOnPage(t, p, ps) <==> p < pc
  {
    var rest := t - (p - 1) * ps;
    assert (p - 1) * ps == p * ps - ps;
    assert (pc - 1) * ps == pc * ps - ps;
    if p < pc {
      // every page before the last one is full, and more records follow it
      MulMono(p, pc - 1, ps);
      assert rest > ps;
    } else {
      // on or after the last page, this page holds all that is left
      MulMono(pc, p, ps);
      assert rest <= ps;
    }
  }

  /** When `count` is the number of records this page really holds, `more`
      says exactly that a later page exists. */
  lemma {:induction false} PaginationMoreMeansLaterPage(total: int, page: int, pageSize: int, count: int, defaultPageSize: int)
    requires defaultPageSize > 0
    requires var r := Pagination(total, page, pageSize, count, defaultPageSize);
      r.totalRecord > 0 && r.count == RecordsOnPage(r.totalRecord, r.page, r.pageSize)
    ensures var r := Pagination(total, page, pageSize, count, defaultPageSize);
      r.more == 1 <==> r.page < r.pageCount
  {
    var r := Pagination(total, page, pageSize, count, defaultPageSize);
    LaterPageArithmetic(r.totalRecord, r.page, r.pageSize, r.pageCount);
  }

  /** The calls the source documents, and two further cases. */
  lemma PaginationExamples()
    ensures Pagination(0, 0, 0, 0, PAGESIZE) == PageBlock(0, 1, 8, 0, 0, 0)
    ensures Pagination(0, 1, 10, 0, PAGESIZE) == PageBlock(0, 1, 10, 0, 0, 0)
    ensures Pagination(10, 1, 8, 8, PAGESIZE) == PageBlock(10, 1, 8, 8, 2, 1)
    ensures Pagination(16, 2, 8, 8, PAGESIZE) == PageBlock(16, 2, 8, 8, 2, 0)
    ensures Pagination(17, 3, 0, 1, PAGESIZE).pageCount == 3
  {
  }

}
