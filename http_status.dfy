// `HttpStatus`: the table of HTTP status codes the web service answers
// with, its text form, the lookup from a code to its status and the query
// for all statuses in a range of codes.
module HttpStatus {
  import opened Wrappers
  import Text

  /** An enum constant: its name, its code and its message. */
  datatype Status = Status(name: string, code: nat, message: string)

  datatype StatusError =
    | NegativeCode(code: int)
    | NegativeMin(min: int)
    | NegativeMax(max: int)
    | MinAboveMax(min: int, max: int)
    | DuplicateKey(key: nat)
    | InitializerFailed

  /** The private constructor: a negative code is refused. */
  function MakeStatus(name: string, code: int, message: string): (r: Result<Status, StatusError>)
    ensures r.Ok? <==> code >= 0
    ensures r.Ok? ==> r.value.name == name && r.value.code == code && r.value.message == message
    ensures r.Err? ==> r.error == NegativeCode(code)
  {
    if code < 0 then Err(NegativeCode(code)) else Ok(Status(name, code, message))
  }

  /** The constants in declaration order, so that an index is an ordinal. */
  const Statuses: seq<Status> := NullAndInformational + Successful + Redirection + ClientError + ServerError

  /** `NullStatus` and the 1xx codes. */
  const NullAndInformational: seq<Status> := [
    Status("NullStatus", 0, "Null"),
    Status("Continue", 100, "Continue"),
    Status("Switching_Protocols", 101, "Switching Protocols"),
    Status("Processing", 102, "Processing")
  ]

  /** The 2xx codes. */
  const Successful: seq<Status> := [
    Status("OK", 200, "OK"),
    Status("Created", 201, "Created"),
    Status("Accepted", 202, "Accepted"),
    Status("NonAuthoritative_Information", 203, "Non-Authoritative Information"),
    Status("No_Content", 204, "No Content"),
    Status("Reset_Content", 205, "Reset Content"),
    Status("Partial_Content", 206, "Partial Content"),
    Status("Multi_Status", 207, "Multi-Status"),
    Status("Already_Reported", 208, "Already Reported"),
    Status("IM_Used", 226, "IM Used")
  ]

  /** The 3xx codes. */
  const Redirection: seq<Status> := [
    Status("Multiple_Choices", 300, "Multiple Choices"),
    Status("Moved_Permanently", 300, "Moved Permanently"),
    Status("Found", 302, ""),
    Status("Moved_Temporarily", 302, "Found"),
    Status("See_Other", 303, "See Other"),
    Status("Not_Modified", 304, "Not Modified"),
    Status("Use_Proxy", 305, ""),
    Status("Switch_Proxy", 306, "Switch Proxy"),
    Status("Temporary_Redirect", 307, "Temporary Redirect"),
    Status("Permanent_Redirect", 308, "Permanent Redirect")
  ]

  /** The 4xx codes. */
  const ClientError: seq<Status> := [
    Status("Bad_Request", 400, "Bad Request"),
    Status("Unauthorized", 401, "Unauthorized"),
    Status("Payment_Required", 402, "Payment Required"),
    Status("Forbidden", 403, "Forbidden"),
    Status("Not_Found", 404, "Not Found"),
    Status("Method_Not_Allowed", 405, "Method Not Allowed"),
    Status("Not_Acceptable", 406, "Not Acceptable"),
    Status("Proxy_Authentication_Required", 407, "Proxy Authentication Required"),
    Status("Request_Timeout", 408, "Request Timeout"),
    Status("Conflict", 409, "Conflict"),
    Status("Gone", 410, "Gone"),
    Status("Length_Required", 411, "Length Required"),
    Status("Precondition_Failed", 412, "Precondition Failed"),
    Status("Request_Entity_Too_Large", 413, "Request Entity Too Large"),
    Status("RequestURI_Too_Long", 414, "Request-URI Too Long"),
    Status("Unsupported_Media_Type", 415, "Unsupported Media Type"),
    Status("Requested_Range_Not_Satisfiable", 416, "Requested Range Not Satisfiable"),
    Status("Expectation_Failed", 417, "Expectation Failed"),
    Status("Im_a_teapot", 418, "I'm a teapot"),
    Status("Enhance_Your_Calm", 420, "Enhance Your Calm"),
    Status("Unprocessable_Entity", 422, "Unprocessable Entity"),
    Status("Locked", 423, "Locked"),
    Status("Failed_Dependency", 424, "Failed Dependency"),
    Status("Method_Failure", 424, "Method Failure"),
    Status("Unordered_Collection", 425, "Unordered Collection"),
    Status("Upgrade_Required", 426, "Upgrade Required"),
    Status("Precondition_Required", 428, "Precondition Required"),
    Status("Too_Many_Requests", 429, "Too Many Requests"),
    Status("Request_Header_Fields_Too_Large", 431, "Request Header Fields Too Large"),
    Status("No_Response", 444, "No Response"),
    Status("Retry_With", 449, "Retry With"),
    Status("Blocked_by_Windows_Parental_Controls", 450, "Blocked by Windows Parental Controls"),
    Status("Unavailable_For_Legal_Reasons", 451, "Unavailable For Legal Reasons"),
    Status("Redirect", 451, "Redirect"),
    Status("Request_Header_Too_Large", 494, "Request Header Too Large"),
    Status("Cert_Error", 495, "Cert Error"),
    Status("No_Cert", 496, "No Cert"),
    Status("HTTP_to_HTTPS", 497, "HTTP to HTTPS"),
    Status("Client_Closed_Request", 499, "Client Closed Request")
  ]

  /** The 5xx codes. */
  const ServerError: seq<Status> := [
    Status("Internal_Server_Error", 500, "Internal Server Error"),
    Status("Not_Implemented", 501, "Not Implemented"),
    Status("Bad_Gateway", 502, "Bad Gateway"),
    Status("Service_Unavailable", 503, "Service Unavailable"),
    Status("Gateway_Timeout", 504, "Gateway Timeout"),
    Status("HTTP_Version_Not_Supported", 505, "HTTP Version Not Supported"),
    Status("Variant_Also_Negotiates", 506, "Variant Also Negotiates"),
    Status("Insufficient_Storag", 507, "Insufficient Storage"),
    Status("Loop_Detected", 508, "Loop Detected"),
    Status("Bandwidth_Limit_Exceeded", 509, "Bandwidth Limit Exceeded"),
    Status("Not_Extended", 510, "Not Extended"),
    Status("Network_Authentication_Required", 511, "Network Authentication Required"),
    Status("Network_read_timeout_error", 598, "Network read timeout error"),
    Status("Network_connect_timeout_error", 599, "Network connect timeout error")
  ]

  const NullStatus: Status := Status("NullStatus", 0, "Null")

  // ------------------------------------------------------------ text form

  /** `toString`: the code zero-padded to three digits and the message, in
      brackets. */
  function ToString(s: Status): (r: string)
    ensures |r| >= |s.message| + 6 && r[0] == '[' && r[|r| - 1] == ']'
  {
    "[" + Text.Pad3(s.code) + " " + s.message + "]"
  }

  predicate IsDigit(c: char)
  {
    '0' <= c <= '9'
  }

  /** The length of the run of digits `s` starts with. */
  function DigitRun(s: string): (k: nat)
    ensures k <= |s|
    ensures forall i :: 0 <= i < k ==> IsDigit(s[i])
    ensures k < |s| ==> !IsDigit(s[k])
  {
    if s == [] || !IsDigit(s[0]) then 0 else 1 + DigitRun(s[1..])
  }

  /** Reads a code and a message back from the text form. */
  function ParseStatusString(r: string): Option<(nat, string)>
  {
    if |r| < 2 || r[0] != '[' || r[|r| - 1] != ']' then None
    else
      var body := r[1..|r| - 1];
      var k := DigitRun(body);
      if k == 0 || k == |body| || body[k] != ' ' then None
      else Some((Text.DigitsValue(body[..k]), body[k + 1..]))
  }

  lemma {:induction false} DigitRunOfDigits(d: string, rest: string)
    requires forall i :: 0 <= i < |d| ==> IsDigit(d[i])
    requires rest != [] && !IsDigit(rest[0])
    ensures DigitRun(d + rest) == |d|
  {
    if d != [] {
      assert (d + rest)[1..] == d[1..] + rest;
      DigitRunOfDigits(d[1..], rest);
    }
  }

  /** The text form gives back the code and the message, whatever the
      message holds. */
  lemma ToStringRoundTrip(s: Status)
    ensures ParseStatusString(ToString(s)) == Some((s.code, s.message))
  {
    var r := ToString(s);
    var d := Text.Pad3(s.code);
    var body := r[1..|r| - 1];
    assert r == "[" + (d + " " + s.message) + "]";
    assert body == d + (" " + s.message);
    assert (" " + s.message)[0] == ' ';
    DigitRunOfDigits(d, " " + s.message);
    assert DigitRun(body) == |d| && body[|d|] == ' ';
    assert body[..|d|] == d;
    assert body[|d| + 1..] == s.message;
    Text.Pad3Value(s.code);
  }

  /** Below code 1000 the code takes exactly the three characters after the
      bracket. */
  lemma ToStringLayout(s: Status)
    requires s.code < 1000
    ensures |ToString(s)| == |s.message| + 6
    ensures ToString(s)[4] == ' ' && ToString(s)[5..|ToString(s)| - 1] == s.message
  {
    Text.Pad3Length(s.code);
  }

  // ------------------------------------------------------------ lookup by code

  /** The last status of `table` with the code. */
  function LastWithCode(table: seq<Status>, code: int): (r: Option<nat>)
    ensures r.Some? ==> r.value < |table| && table[r.value].code == code
    ensures r.Some? ==> forall j :: r.value < j < |table| ==> table[j].code != code
    ensures r.None? ==> forall j :: 0 <= j < |table| ==> table[j].code != code
  {
    if table == [] then None
    else if table[|table| - 1].code == code then Some(|table| - 1)
    else LastWithCode(table[..|table| - 1], code)
  }

  /** Putting every status of `table` into a map under its code, in order,
      a later status replacing an earlier one. */
  function LastWins(table: seq<Status>): (m: map<nat, Status>)
    ensures forall c :: c in m ==> exists j :: 0 <= j < |table| && table[j].code == c
  {
    if table == [] then map[] else LastWins(table[..|table| - 1])[table[|table| - 1].code := table[|table| - 1]]
  }

  /** The map holds each code of `table`, with the last status so coded. */
  lemma {:induction false} LastWinsLookup(table: seq<Status>, code: nat)
    ensures code in LastWins(table) <==> LastWithCode(table, code).Some?
    ensures code in LastWins(table) ==> LastWins(table)[code] == table[LastWithCode(table, code).value]
  {
    if table != [] {
      LastWinsLookup(table[..|table| - 1], code);
    }
  }

  predicate HasDuplicateCodes(table: seq<Status>)
  {
    exists i, j :: 0 <= i < j < |table| && table[i].code == table[j].code
  }

  /** The static initialiser of the code map: every status is put into an
      immutable-map builder, which refuses a key put twice. */
  method InitCodeMap(table: seq<Status>) returns (r: Result<map<nat, Status>, StatusError>)
    ensures r.Err? <==> HasDuplicateCodes(table)
    ensures r.Err? ==> r.error.DuplicateKey? && exists i, j :: 0 <= i < j < |table| && table[i].code == table[j].code == r.error.key
    ensures r.Ok? ==> r.value == LastWins(table)
  {
    var m: map<nat, Status> := map[];
    var i := 0;
    while i < |table|
      invariant 0 <= i <= |table|
      invariant m == LastWins(table[..i])
      invariant !HasDuplicateCodes(table[..i])
    {
      var s := table[i];
      assert table[..i + 1][..i] == table[..i];
      if s.code in m {
        var j :| 0 <= j < i && table[..i][j].code == s.code;
        assert table[j].code == table[i].code;
        return Err(DuplicateKey(s.code));
      }
      ghost var p := table[..i + 1];
      forall a, b | 0 <= a < b < i + 1
        ensures p[a].code != p[b].code
      {
        if b == i {
          LastWinsLookup(table[..i], s.code);
          assert table[..i][a].code != s.code;
        } else {
          assert table[..i][a].code != table[..i][b].code;
        }
      }
      m := m[s.code := s];
      i := i + 1;
    }
    assert table[..i] == table;
    r := Ok(m);
  }

  /** `valueOf` as the code is written: the code map is built on first use,
      and the duplicate codes of the table make that fail, so every lookup
      of a non-negative code fails. */
  function ValueOfAsWritten(table: seq<Status>, code: int): (r: Result<Status, StatusError>)
    ensures code < 0 ==> r == Err(NegativeCode(code))
    ensures code >= 0 && HasDuplicateCodes(table) ==> r == Err(InitializerFailed)
  {
    if code < 0 then Err(NegativeCode(code))
    else if HasDuplicateCodes(table) then Err(InitializerFailed)
    else
      var m := LastWins(table);
      Ok(if code in m then m[code] else NullStatus)
  }

  /** `valueOf` as documented: the last status defined with the code, or
      `NullStatus` when there is none; a negative code is refused. */
  function ValueOf(table: seq<Status>, code: int): (r: Result<Status, StatusError>)
    ensures r.Err? <==> code < 0
    ensures r.Err? ==> r.error == NegativeCode(code)
  {
    if code < 0 then Err(NegativeCode(code))
    else
      var m := LastWins(table);
      Ok(if code in m then m[code] else NullStatus)
  }

  /** `valueOf` gives the last status defined with the code, and
      `NullStatus` for a code no status has. */
  lemma ValueOfIsLastDefined(table: seq<Status>, code: nat)
    ensures LastWithCode(table, code).Some? ==> ValueOf(table, code) == Ok(table[LastWithCode(table, code).value])
    ensures LastWithCode(table, code).None? ==> ValueOf(table, code) == Ok(NullStatus)
  {
    LastWinsLookup(table, code);
  }

  /** For any table, the two readings agree on a code exactly when the code
      is negative or the table has no duplicate codes. */
  lemma AsWrittenAgreesWithoutDuplicates(table: seq<Status>, code: int)
    ensures ValueOfAsWritten(table, code) == ValueOf(table, code) <==> code < 0 || !HasDuplicateCodes(table)
  {
  }

  /** Codes 300, 302, 424 and 451 are each declared twice. */
  lemma DuplicatedCodes()
    ensures Statuses[14].name == "Multiple_Choices" && Statuses[15].name == "Moved_Permanently"
    ensures Statuses[14].code == Statuses[15].code == 300
    ensures Statuses[16].name == "Found" && Statuses[17].name == "Moved_Temporarily"
    ensures Statuses[16].code == Statuses[17].code == 302
    ensures Statuses[46].name == "Failed_Dependency" && Statuses[47].name == "Method_Failure"
    ensures Statuses[46].code == Statuses[47].code == 424
    ensures Statuses[56].name == "Unavailable_For_Legal_Reasons" && Statuses[57].name == "Redirect"
    ensures Statuses[56].code == Statuses[57].code == 451
  {
  }

  /** So, as written, looking up any code fails, even one declared once. */
  lemma DuplicatesBreakValueOf(code: nat)
    ensures ValueOfAsWritten(Statuses, code) == Err(InitializerFailed)
  {
    DuplicatedCodes();
    assert Statuses[14].code == Statuses[15].code;
  }

  // ------------------------------------------------------------ ranges

  /** The statuses of `table` with `min <= code <= max`. */
  function InRange(table: seq<Status>, min: int, max: int): set<Status>
  {
    set i | 0 <= i < |table| && min <= table[i].code <= max :: table[i]
  }

  lemma InRangeMembers(table: seq<Status>, min: int, max: int, s: Status)
    ensures s in InRange(table, min, max) <==> s in table && min <= s.code <= max
  {
    if s in table && min <= s.code <= max {
      var i :| 0 <= i < |table| && table[i] == s;
      assert table[i] in InRange(table, min, max);
    }
  }

  /** A range splits into two adjacent ones. */
  lemma RangesSplit(table: seq<Status>, a: int, b: int, c: int)
    requires a <= b < c
    ensures InRange(table, a, c) == InRange(table, a, b) + InRange(table, b + 1, c)
  {
    forall s
      ensures s in InRange(table, a, c) <==> s in InRange(table, a, b) + InRange(table, b + 1, c)
    {
      InRangeMembers(table, a, c, s);
      InRangeMembers(table, a, b, s);
      InRangeMembers(table, b + 1, c, s);
    }
  }

  lemma InRangeStep(table: seq<Status>, i: nat, min: int, max: int)
    requires i < |table|
    ensures InRange(table[..i + 1], min, max)
            == InRange(table[..i], min, max) + (if min <= table[i].code <= max then {table[i]} else {})
  {
    var prefix := table[..i + 1];
    forall s
      ensures s in InRange(prefix, min, max) <==> s in InRange(table[..i], min, max) + (if min <= table[i].code <= max then {table[i]} else {})
    {
      InRangeMembers(prefix, min, max, s);
      InRangeMembers(table[..i], min, max, s);
      assert prefix == table[..i] + [table[i]];
    }
  }

  /** `getStatusesInRange`: negative bounds and an empty range are refused;
      otherwise every status with a code in the range, inclusive. */
  method StatusesInRange(min: int, max: int) returns (r: Result<set<Status>, StatusError>)
    ensures min < 0 ==> r == Err(NegativeMin(min))
    ensures min >= 0 && max < 0 ==> r == Err(NegativeMax(max))
    ensures min >= 0 && max >= 0 && min > max ==> r == Err(MinAboveMax(min, max))
    ensures 0 <= min <= max ==> r == Ok(InRange(Statuses, min, max))
  {
    if min < 0 {
      return Err(NegativeMin(min));
    }
    if max < 0 {
      return Err(NegativeMax(max));
    }
    if min > max {
      return Err(MinAboveMax(min, max));
    }
    var result := CollectInRange(Statuses, min, max);
    r := Ok(result);
  }

  /** The loop of `getStatusesInRange` over the status table. */
  method CollectInRange(table: seq<Status>, min: int, max: int) returns (result: set<Status>)
    ensures result == InRange(table, min, max)
  {
    result := {};
    var i := 0;
    while i < |table|
      invariant 0 <= i <= |table|
      invariant result == InRange(table[..i], min, max)
    {
      InRangeStep(table, i, min, max);
      if min <= table[i].code && max >= table[i].code {
        result := result + {table[i]};
      }
      i := i + 1;
    }
    assert table[..i] == table;
  }
}
