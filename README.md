# ApiHelper: response envelope and pagination block

A Dafny model of `Common\Api\ApiHelper`, the helper class that turns a
controller's result into the API's uniform response array
`{code, message, data[, pagination]}` (`ApiHelper::output`) and computes the
pagination block attached to list results (`ApiHelper::pagination`).

- `Wrappers.dfy`: the `Option` type used for the optional `pagination` key.
- `PhpRuntime.dfy`: the parts of PHP's runtime the class relies on: `trim`
  with its default character list, string truthiness (`""` and `"0"` are
  false), `intval` of a boolean, and `ceil($t / $ps)` as exact integer ceiling
  division.
- `ApiHelper.dfy`: the two static fields as constants (`ErrorCodeList`,
  `PAGESIZE` = 8), `Output` and `Pagination`, and the lemmas about them.

`output` dispatches on the runtime kind of its first argument. The model has
the caller state that kind with a tag: `Code(n)` for a numeric code,
`Payload(items)` for an array, `Text(s)` for a non-numeric string, and
`Null` or `Flag(b)` for the values that go through `intval` and are
dispatched again. The second argument is tagged as `Str(s)`, `Arr(block)`
or `Nil`. The error table and the default page size are read-only
configuration, so both are parameters. The shipped values are the constants.

The code-0 case is modelled as written. When the code is 0, the method sets
`$errorCode` to -1 (:88-90), which suggests that code 0 was meant to be
reported as -1. But `$return['code']` was already stored at :87, and the -1
is never read. So `output(0)` returns code 0 with message `SUCCESS`
(`OutputZeroCode`), and `Output` returns every numeric code unchanged.

When an unknown code is given without a message, the message is the code
value itself (an integer in PHP's array). It is not a string, so the model
uses `Message.Numeric(n)`.

## Model

| member | source | states |
|---|---|---|
| `PhpRuntime.LeadLen` | Common/Api/ApiHelper.class.php:85 | The leading run `trim` cuts: every character before it is a trim character, and the character after it (if any) is not |
| `PhpRuntime.TrailLen` | Common/Api/ApiHelper.class.php:85 | The trailing run `trim` cuts: every character in it is a trim character, and the character before it (if any) is not |
| `PhpRuntime.Trim` | Common/Api/ApiHelper.class.php:85 | `trim` keeps a contiguous middle slice of its input, starting where the leading run of trim characters ends; everything cut on either side is trim characters, and the kept slice neither starts nor ends with one |
| `PhpRuntime.TrimOfTrimmed` | Common/Api/ApiHelper.class.php:85 | A string with no trim character at either end is left unchanged by `trim` |
| `PhpRuntime.BlankIff` | Common/Api/ApiHelper.class.php:85 | `trim($errorMessage)` is falsy exactly when the message is only trim characters, or one `0` padded with them (so `""`, whitespace and `" 0 "` are blank) |
| `PhpRuntime.CeilDiv` | Common/Api/ApiHelper.class.php:180 | `ceil(t / ps)` for t >= 0, ps > 0: q >= 0, q = 0 only for t = 0, and (q-1)*ps < t <= q*ps |
| `PhpRuntime.CeilDivUnique` | Common/Api/ApiHelper.class.php:180 | Those bounds determine the ceiling: any q meeting them equals CeilDiv |
| `ApiHelper.ShippedConfiguration` | Common/Api/ApiHelper.class.php:26-42 | The shipped table maps 0 to "SUCCESS" and 1003 to "账号不存在", and the default page size is positive |
| `ApiHelper.ResolveMessage` | Common/Api/ApiHelper.class.php:85 | The error message is the caller's string exactly when it is neither made only of trim characters nor a single `0` padded with them; otherwise the table entry for the code, and for a code missing from the table the code itself |
| `ApiHelper.Output` | Common/Api/ApiHelper.class.php:81-110 | `pagination` is present iff the input is an array payload and the second argument an array, and then it is that argument with code 0; every non-payload result has empty data; a non-zero code never carries data or pagination; a numeric code is returned as given (no -1 substitution); null gives code 0, a boolean its intval |
| `ApiHelper.OutputCodeWithMessage` | Common/Api/ApiHelper.class.php:83-92 | Numeric code with a non-blank message: code as given, that message verbatim, empty data, no pagination |
| `ApiHelper.OutputCodeWithoutMessage` | Common/Api/ApiHelper.class.php:85-92 | Numeric code with a blank, null or array second argument: the table message if the code is in the table, else the code itself |
| `ApiHelper.OutputCodeBlankMessage` | Common/Api/ApiHelper.class.php:85 | A whitespace-only or padded-`0` message is replaced by the table entry or the code |
| `ApiHelper.OutputZeroCode` | Common/Api/ApiHelper.class.php:86-91 | Code 0 with no message yields code 0 (not -1) and "SUCCESS" |
| `ApiHelper.OutputPayload` | Common/Api/ApiHelper.class.php:93-101 | Array payload: code 0, "SUCCESS", data is the payload, pagination present iff the second argument is an array and then equal to it |
| `ApiHelper.OutputText` | Common/Api/ApiHelper.class.php:102-106 | Non-numeric string: code 0, the string as message, empty data, no pagination |
| `ApiHelper.OutputOther` | Common/Api/ApiHelper.class.php:107-109 | null behaves as code 0, a boolean as code intval(b), with the same second argument |
| `ApiHelper.OutputDefaultsSucceed` | Common/Api/ApiHelper.class.php:107-109 | `output(null)` and `output(false)` with no message return code 0 "SUCCESS" with empty data |
| `ApiHelper.OutputNoArguments` | Common/Api/ApiHelper.class.php:81-92 | `output()` (defaults code 0 and message `''`) returns code 0 "SUCCESS" with empty data and no pagination |
| `ApiHelper.OutputMessageSource` | Common/Api/ApiHelper.class.php:85 | A code envelope's message is exactly one of: the caller's non-blank string, the table entry, or the code |
| `ApiHelper.OutputKnownCodeExample` | Common/Api/ApiHelper.class.php:26-37 | With the shipped table, `output(1003)` is code 1003 with message "账号不存在", empty data and no pagination |
| `ApiHelper.OutputUnknownCodeExample` | Common/Api/ApiHelper.class.php:76 | `output(101)`: 101 is not in the table, so the message is the number 101, with code 101, empty data and no pagination |
| `ApiHelper.OutputPayloadExample` | Common/Api/ApiHelper.class.php:78 | `output(array('abc'))` is code 0, "SUCCESS", with `['abc']` as data and no pagination |
| `ApiHelper.Pagination` | Common/Api/ApiHelper.class.php:157-185 | Clamped total; page size is the given one if positive, else the default; no records gives page 1, count 0, page_count 0, more 0; otherwise page >= 1, count clamped, page_count >= 1 with (page_count-1)*pagesize < total <= page_count*pagesize; more is 0 or 1, and 1 iff (page-1)*pagesize + count < total |
| `ApiHelper.PaginationEmpty` | Common/Api/ApiHelper.class.php:152-171 | With total <= 0 the requested page and count are ignored; with no page size either the block is (0, 1, default, 0, 0, 0), so pagination(0) equals pagination(0,0,0,0) |
| `ApiHelper.PaginationPageCountIsCeil` | Common/Api/ApiHelper.class.php:180 | page_count equals any q with (q-1)*pagesize < total <= q*pagesize, i.e. the ceiling of total / pagesize |
| `ApiHelper.PaginationIdempotent` | Common/Api/ApiHelper.class.php:157-185 | Feeding a block's own four counters back into pagination reproduces the block |
| `ApiHelper.LaterPageArithmetic` | Common/Api/ApiHelper.class.php:174-180 | With page_count pages of pagesize for total records, records remain beyond a page holding its share exactly when it is not the last page |
| `ApiHelper.PaginationMoreMeansLaterPage` | Common/Api/ApiHelper.class.php:174-181 | When count is the number of records the page really holds, more = 1 iff page < page_count |
| `ApiHelper.PaginationExamples` | Common/Api/ApiHelper.class.php:152-155 | The documented calls pagination(0,0,0,0), (0,1,10,0) and (10,1,8,8), plus (16,2,8,8) and a 17-record total, give the expected blocks |

## Left out

- The JSON branch of `output` (:112-126) is not modelled. It covers `headers_sent`, the user-agent check for "MSIE 9", the Content-type header, the 401 status for code 10000, `json_encode`, `echo` and `exit`. All of it is transport I/O and process termination. The model is the `$format != 'json'` path.
- PHP's `is_numeric` / `intval` string parsing and `isset` key coercion are not modelled. The caller tags the first argument instead, so a numeric string is passed as `Code` with its integer value. As a result the fallback message for an unknown numeric string is the integer, not the original string.
- Floats, objects and resources as the first argument are not modelled. The second argument may only be a string, an array or null.
- `trim` applied to an array (:85) raises a warning or error that the model does not capture. The model treats an array second argument on the code path as no message, which is PHP 7's result.
- Pagination: the counters are taken as integers already, so `intval` on arbitrary values is not modelled.
- Pagination: `page_count` is exact integer ceiling division, not `ceil` of a float quotient. PHP returns a float there.
- Pagination: requires `defaultPageSize > 0`. A zero or negative `$pagesize` (a division by zero, or a negative page count) is not modelled.
- Pagination: `more` is the integer 1 or 0, as on the wire.
