/** The utility rules of the web application: string-to-boolean conversion, the
    thousands filter, the external JSON representation, the IUID URL converter,
    HTTP method tunnelling, CSRF tokens and the clean-up of log entries. */
module Utils {
  import opened Values
  import opened Constants
  import LogDiff

  // ---- to_bool ----

  const TRUE_WORDS: seq<string> := ["true", "t", "yes", "y"]

  /** `s` spells `w` with any mixture of upper- and lower-case ASCII letters. */
  predicate SpellsIgnoringCase(s: string, w: string)
  {
    |s| == |w| && forall i :: 0 <= i < |s| ==> SameLetterIgnoringCase(s[i], w[i])
  }

  /** `to_bool(s)`: an empty or missing string is false; otherwise true exactly when
      it is one of true, t, yes, y in any case. (Only ASCII lower-casing is modelled:
      no other character lower-cases to a letter of these words.) */
  function ToBool(s: Option<string>): (r: bool)
    ensures s == None || s == Some("") ==> !r
    ensures r <==> s.Some? && (SpellsIgnoringCase(s.value, "true") || SpellsIgnoringCase(s.value, "t") ||
                               SpellsIgnoringCase(s.value, "yes") || SpellsIgnoringCase(s.value, "y"))
  {
    if s.None? || s.value == "" then false
    else
      LowerIsCaseInsensitiveMatch(s.value, "true");
      LowerIsCaseInsensitiveMatch(s.value, "t");
      LowerIsCaseInsensitiveMatch(s.value, "yes");
      LowerIsCaseInsensitiveMatch(s.value, "y");
      Lower(s.value) in TRUE_WORDS
  }

  // ---- thousands ----

  function DigitChar(d: nat): (c: char)
    requires d < 10
    ensures IsDigit(c) && c as int - '0' as int == d
  {
    ('0' as int + d) as char
  }

  /** The decimal digits of `n`, most significant first, without leading zeros. */
  function DecimalDigits(n: nat): (s: string)
    ensures |s| > 0 && forall i :: 0 <= i < |s| ==> IsDigit(s[i])
    ensures s[0] != '0' || n == 0
  {
    if n < 10 then [DigitChar(n)] else DecimalDigits(n / 10) + [DigitChar(n % 10)]
  }

  /** Reads a string of decimal digits. */
  function ParseDigits(s: string): nat
  {
    if s == [] then 0
    else ParseDigits(s[..|s| - 1]) * 10 + (if IsDigit(s[|s| - 1]) then s[|s| - 1] as int - '0' as int else 0)
  }

  lemma {:induction false} ParseDecimalDigits(n: nat)
    ensures ParseDigits(DecimalDigits(n)) == n
  {
    if n >= 10 {
      var s := DecimalDigits(n);
      assert s[..|s| - 1] == DecimalDigits(n / 10);
      ParseDecimalDigits(n / 10);
    }
  }

  /** Inserts a comma before every group of three digits counted from the right. */
  function Group(d: string): string
  {
    if |d| <= 3 then d else Group(d[..|d| - 3]) + "," + d[|d| - 3..]
  }

  function RemoveCommas(s: string): string
  {
    if s == [] then [] else (if s[0] == ',' then [] else [s[0]]) + RemoveCommas(s[1..])
  }

  lemma {:induction false} RemoveCommasConcat(a: string, b: string)
    ensures RemoveCommas(a + b) == RemoveCommas(a) + RemoveCommas(b)
  {
    if a != [] {
      assert (a + b)[1..] == a[1..] + b;
      RemoveCommasConcat(a[1..], b);
    } else {
      assert a + b == b;
    }
  }

  lemma {:induction false} RemoveCommasOfDigits(d: string)
    requires forall i :: 0 <= i < |d| ==> IsDigit(d[i])
    ensures RemoveCommas(d) == d
  {
    if d != [] {
      RemoveCommasOfDigits(d[1..]);
    }
  }

  /** `s` is digits grouped by three from the right: a leading group of one to three
      digits, then any number of groups of a comma and three digits. */
  predicate WellGrouped(s: string)
    decreases |s|
  {
    if |s| <= 3 then |s| >= 1 && forall i :: 0 <= i < |s| ==> IsDigit(s[i])
    else |s| >= 5 && s[|s| - 4] == ',' && (forall i :: |s| - 3 <= i < |s| ==> IsDigit(s[i])) &&
         WellGrouped(s[..|s| - 4])
  }

  /** Removing the commas from a group, a comma and three digits. */
  lemma RemoveCommasJoin(g: string, tail: string)
    requires forall i :: 0 <= i < |tail| ==> IsDigit(tail[i])
    ensures RemoveCommas(g + "," + tail) == RemoveCommas(g) + tail
  {
    var x := g + ",";
    RemoveCommasConcat(x, tail);
    RemoveCommasConcat(g, ",");
    RemoveCommasOfComma();
    RemoveCommasOfDigits(tail);
    assert RemoveCommas(x) == RemoveCommas(g);
  }

  lemma RemoveCommasOfComma()
    ensures RemoveCommas(",") == []
  {
    assert ","[1..] == [];
  }

  /** Removing the commas undoes the grouping. */
  lemma {:induction false} GroupRemoveCommas(d: string)
    requires forall i :: 0 <= i < |d| ==> IsDigit(d[i])
    ensures RemoveCommas(Group(d)) == d
  {
    if |d| <= 3 {
      RemoveCommasOfDigits(d);
    } else {
      var head, tail := d[..|d| - 3], d[|d| - 3..];
      GroupRemoveCommas(head);
      RemoveCommasJoin(Group(head), tail);
      assert head + tail == d;
    }
  }

  /** Grouping a non-empty string of digits yields a well-grouped numeral. */
  lemma {:induction false} GroupWellGrouped(d: string)
    requires |d| > 0 && forall i :: 0 <= i < |d| ==> IsDigit(d[i])
    ensures WellGrouped(Group(d))
  {
    if |d| > 3 {
      var head := d[..|d| - 3];
      GroupWellGrouped(head);
      var s := Group(d);
      assert s == Group(head) + "," + d[|d| - 3..];
      assert s[..|s| - 4] == Group(head);
    }
  }

  /** Grouping keeps the leading digit in front. */
  lemma {:induction false} GroupKeepsLeadingDigit(d: string)
    requires |d| > 0
    ensures |Group(d)| > 0 && Group(d)[0] == d[0]
  {
    if |d| > 3 {
      GroupKeepsLeadingDigit(d[..|d| - 3]);
    }
  }

  /** `'{:,}'.format(n)`: the decimal form of `n` with thousands separators. */
  function FormatThousands(n: int): string
  {
    if n < 0 then "-" + Group(DecimalDigits(-n)) else Group(DecimalDigits(n))
  }

  /** Reads a possibly negative number written with thousands separators. */
  function ParseThousands(s: string): int
  {
    if |s| > 0 && s[0] == '-' then -(ParseDigits(RemoveCommas(s[1..])) as int) else ParseDigits(RemoveCommas(s))
  }

  /** The formatted numeral reads back as the same number, and is a well-grouped
      numeral without leading zeros (zero itself is "0"), after a `-` for a negative
      number. These together leave only one string for each number. */
  lemma {:induction false} FormatThousandsCorrect(n: int)
    ensures ParseThousands(FormatThousands(n)) == n
    ensures n < 0 ==> |FormatThousands(n)| > 1 && FormatThousands(n)[0] == '-' && WellGrouped(FormatThousands(n)[1..])
    ensures n < 0 ==> FormatThousands(n)[1] != '0'
    ensures n >= 0 ==> WellGrouped(FormatThousands(n))
    ensures n > 0 ==> FormatThousands(n)[0] != '0'
    ensures FormatThousands(0) == "0"
  {
    var m: nat := if n < 0 then -n else n;
    var d := DecimalDigits(m);
    GroupRemoveCommas(d);
    GroupWellGrouped(d);
    GroupKeepsLeadingDigit(d);
    ParseDecimalDigits(m);
    if n < 0 {
      var s := FormatThousands(n);
      assert s == "-" + Group(d);
      assert s[1..] == Group(d);
    }
  }

  /** `thousands(value)`: an int is formatted with comma separators (a bool is an int
      in Python, and formats as 1 or 0); any other value is returned unchanged. */
  function Thousands(v: Value): (r: Value)
    ensures v.Int? ==> r == Str(FormatThousands(v.i))
    ensures v.Bool? ==> r == Str(if v.b then "1" else "0")
    ensures !v.Int? && !v.Bool? ==> r == v
  {
    match v
    case Int(n) => Str(FormatThousands(n))
    case Bool(b) => Str(if b then "1" else "0")
    case _ => v
  }

  // ---- get_json ----

  /** `get_json(**data)`: the external representation of a document. It starts from
      `$id` (the request URL) and `timestamp`; a present `_id` is moved to `iuid`;
      `_rev` and `doctype` are dropped; every other key of `data` is copied over last,
      so it wins over `$id`, `timestamp` and `iuid`. */
  method GetJson(data: Doc, url: string, now: string) returns (result: Doc)
    ensures "$id" in result && "timestamp" in result
    ensures "_id" !in result && "_rev" !in result && "doctype" !in result
    ensures result.Keys == {"$id", "timestamp"} + (if "_id" in data then {"iuid"} else {}) + (data.Keys - {"_id", "_rev", "doctype"})
    ensures forall k :: k in data && k !in {"_id", "_rev", "doctype"} ==> result[k] == data[k]
    ensures "iuid" !in data && "_id" in data ==> result["iuid"] == data["_id"]
    ensures "$id" !in data ==> result["$id"] == Str(url)
    ensures "timestamp" !in data ==> result["timestamp"] == Str(now)
  {
    var rest := data;
    result := map["$id" := Str(url), "timestamp" := Str(now)];
    if "_id" in rest {
      result := result["iuid" := rest["_id"]];
      rest := rest - {"_id"};
    }
    rest := rest - {"_rev"};
    rest := rest - {"doctype"};
    result := result + rest;
  }

  // ---- IuidConverter.to_python ----

  /** The IUID URL converter: a string that matches `IUID_RX` is returned lower-cased;
      any other string raises ValidationError. */
  function IuidToPython(value: string): (r: Result<string>)
    ensures r.Success? <==> IsIuid(value)
    ensures r.Failure? ==> r.error == ValidationError
    ensures r.Success? ==> IsIuid(r.value) && SpellsIgnoringCase(value, r.value)
    ensures r.Success? ==> forall i :: 0 <= i < |r.value| ==> !IsAsciiUpper(r.value[i])
  {
    if IsIuid(value) then
      var w := Lower(value);
      LowerIsCaseInsensitiveMatch(value, w);
      Success(w)
    else Failure(ValidationError)
  }

  /** Converting an already converted IUID gives it back unchanged. */
  lemma IuidToPythonIdempotent(value: string)
    requires IuidToPython(value).Success?
    ensures IuidToPython(IuidToPython(value).value) == IuidToPython(value)
  {
    LowerKeepsLowerCase(IuidToPython(value).value);
  }

  lemma LowerKeepsLowerCase(s: string)
    requires forall i :: 0 <= i < |s| ==> !IsAsciiUpper(s[i])
    ensures Lower(s) == s
  {
    assert forall i :: 0 <= i < |s| ==> Lower(s)[i] == s[i];
  }

  /** The converter as written, with `IUID_RX`'s `$` accepting a final newline: it
      agrees with the corrected converter on every IUID, and whatever else it accepts
      ends in a newline after an IUID. */
  function IuidToPythonAsWritten(value: string): (r: Result<string>)
    ensures IsIuid(value) ==> r == IuidToPython(value)
    ensures r.Success? && !IsIuid(value) ==> |value| == 33 && value[32] == '\n' && IsIuid(value[..32])
    ensures r.Failure? ==> r.error == ValidationError && IuidToPython(value).Failure?
  {
    if IuidRxAsWritten(value) then Success(Lower(value)) else Failure(ValidationError)
  }

  /** As written, an IUID followed by a newline is accepted, and the newline is kept
      in the (lower-cased) identifier handed to the view; the corrected converter
      refuses it. */
  lemma IuidToPythonAsWrittenKeepsNewline(t: string)
    requires IsIuid(t)
    ensures IuidToPythonAsWritten(t + "\n") == Success(Lower(t) + "\n")
    ensures IuidToPython(t + "\n") == Failure(ValidationError)
  {
    AnchoredPatternsAcceptTrailingNewline(t);
    assert Lower(t + "\n") == Lower(t) + "\n" by {
      assert forall i :: 0 <= i < |t| ==> (t + "\n")[i] == t[i];
    }
  }

  // ---- HTTP method tunnelling and CSRF ----

  datatype Request = Request(httpMethod: string, form: map<string, string>)

  const CSRF_KEY := "_csrf_token"

  /** `check_csrf_token()`: aborts with 400 when the session holds no token or an
      empty one, or when the form does not echo that token. */
  function CheckCsrfToken(session: map<string, string>, form: map<string, string>): (r: Result<()>)
    ensures r.Success? <==> CSRF_KEY in session && session[CSRF_KEY] != "" &&
                            CSRF_KEY in form && form[CSRF_KEY] == session[CSRF_KEY]
    ensures r.Failure? ==> r.error == Abort(400)
  {
    var token := Get(session, CSRF_KEY);
    if token.None? || token.value == "" || token != Get(form, CSRF_KEY) then Failure(Abort(400))
    else Success(())
  }

  /** `http_GET()`. */
  function HttpGet(req: Request): bool
  {
    req.httpMethod == "GET"
  }

  /** `http_PUT()`: PUT is never tunnelled. */
  function HttpPut(req: Request): bool
  {
    req.httpMethod == "PUT"
  }

  /** `http_POST(csrf)`: a POST that does not tunnel another method (checking the
      CSRF token first when asked). */
  function HttpPost(req: Request, session: map<string, string>, csrf: bool): (r: Result<bool>)
    ensures var tunnel := Get(req.form, "_http_method");
      r == Success(true) <==> req.httpMethod == "POST" && (tunnel == None || tunnel == Some("POST")) &&
                              (!csrf || CheckCsrfToken(session, req.form).Success?)
    ensures var tunnel := Get(req.form, "_http_method");
      r.Failure? <==> req.httpMethod == "POST" && (tunnel == None || tunnel == Some("POST")) &&
                      csrf && CheckCsrfToken(session, req.form).Failure?
    ensures r.Failure? ==> r.error == Abort(400)
  {
    if req.httpMethod != "POST" then Success(false)
    else if Get(req.form, "_http_method") in {None, Some("POST")} then
      if csrf && CheckCsrfToken(session, req.form).Failure? then Failure(Abort(400)) else Success(true)
    else Success(false)
  }

  /** `http_DELETE(csrf)`: a DELETE, or a POST tunnelling DELETE; every POST has its
      CSRF token checked when asked, whatever it tunnels. */
  function HttpDelete(req: Request, session: map<string, string>, csrf: bool): (r: Result<bool>)
    ensures r == Success(true) <==>
      (req.httpMethod == "DELETE" ||
       (req.httpMethod == "POST" && Get(req.form, "_http_method") == Some("DELETE") &&
        (!csrf || CheckCsrfToken(session, req.form).Success?)))
    ensures r.Failure? <==> req.httpMethod == "POST" && csrf && CheckCsrfToken(session, req.form).Failure?
    ensures r.Failure? ==> r.error == Abort(400)
  {
    if req.httpMethod == "DELETE" then Success(true)
    else if req.httpMethod == "POST" then
      if csrf && CheckCsrfToken(session, req.form).Failure? then Failure(Abort(400))
      else Success(Get(req.form, "_http_method") == Some("DELETE"))
    else Success(false)
  }

  /** GET and PUT are taken from the request method alone: no form field can tunnel them. */
  lemma GetAndPutAreNotTunnelled(req: Request, form: map<string, string>)
    ensures HttpGet(req) == HttpGet(Request(req.httpMethod, form))
    ensures HttpPut(req) == HttpPut(Request(req.httpMethod, form))
    ensures HttpGet(req) ==> req.httpMethod == "GET"
    ensures HttpPut(req) ==> req.httpMethod == "PUT"
  {
  }

  /** No request is taken as two methods at once. */
  lemma AtMostOneMethod(req: Request, session: map<string, string>, csrf: bool)
    ensures !(HttpPost(req, session, csrf) == Success(true) && HttpDelete(req, session, csrf) == Success(true))
    ensures !(HttpGet(req) && (HttpPut(req) || HttpPost(req, session, csrf) == Success(true) ||
                               HttpDelete(req, session, csrf) == Success(true)))
    ensures !(HttpPut(req) && (HttpPost(req, session, csrf) == Success(true) ||
                               HttpDelete(req, session, csrf) == Success(true)))
  {
  }

  /** The session of the current user: a mutable mapping. */
  class Session {
    var entries: map<string, string>

    constructor (m: map<string, string>)
      ensures entries == m
    {
      entries := m;
    }
  }

  const CSRF_INPUT_PREFIX := "<input type=\"hidden\" name=\"_csrf_token\" value=\""
  const CSRF_INPUT_SUFFIX := "\">"

  /** `csrf_token()`: stores `iuid` as the session's token only when it has none, and
      returns the hidden form field carrying the session's token. */
  method CsrfToken(session: Session, iuid: string) returns (html: string)
    modifies session
    ensures session.entries == IssuedSession(old(session.entries), iuid)
    ensures CSRF_KEY in old(session.entries) ==> session.entries == old(session.entries)
    ensures CSRF_KEY !in old(session.entries) ==> session.entries == old(session.entries)[CSRF_KEY := iuid]
    ensures CSRF_KEY in session.entries
    ensures html == CSRF_INPUT_PREFIX + session.entries[CSRF_KEY] + CSRF_INPUT_SUFFIX
  {
    if CSRF_KEY !in session.entries {
      session.entries := session.entries[CSRF_KEY := iuid];
    }
    html := CSRF_INPUT_PREFIX + session.entries[CSRF_KEY] + CSRF_INPUT_SUFFIX;
  }

  /** The session that `csrf_token` leaves behind. */
  function IssuedSession(session: map<string, string>, iuid: string): map<string, string>
  {
    if CSRF_KEY in session then session else session[CSRF_KEY := iuid]
  }

  /** Issuing twice changes the session no more than issuing once: the first token stays. */
  lemma CsrfIssueIdempotent(session: map<string, string>, iuid: string, iuid2: string)
    ensures IssuedSession(IssuedSession(session, iuid), iuid2) == IssuedSession(session, iuid)
    ensures CSRF_KEY in IssuedSession(session, iuid)
  {
  }

  /** A form that posts back the issued (non-empty) token passes the check. */
  lemma CsrfIssueThenCheck(session: map<string, string>, iuid: string, form: map<string, string>)
    requires CSRF_KEY in session ==> session[CSRF_KEY] != ""
    requires iuid != ""
    ensures var s := IssuedSession(session, iuid);
      CheckCsrfToken(s, form[CSRF_KEY := s[CSRF_KEY]]).Success?
  {
  }

  // ---- The log view and get_logs ----

  /** The `logs/doc` view emits a document exactly when its doctype is 'log'
      (`doc.doctype !== 'log'` is a strict comparison). */
  predicate LogsViewSelects(doc: Doc)
  {
    "doctype" in doc && doc["doctype"] == Str("log")
  }

  /** Why the corrected log doctype is `log`: every entry the corrected saver builds
      is selected by the logs view, under its document's identifier and timestamp. */
  lemma LogEntriesAreSelected(iuid: string, docid: Value, added: seq<string>, updated: map<string, Value>,
                              removed: map<string, Value>, now: string, who: LogDiff.Identity)
    ensures var e := LogDiff.EntryDoc(iuid, docid, added, updated, removed, now, who);
      LogsViewSelects(e) && e["docid"] == docid && e["timestamp"] == Str(now)
  {
  }

  /** The keys of a log entry that `get_logs` pops, in the order it pops them. */
  const LOG_INTERNAL_KEYS: seq<string> := ["_id", "_rev", "doctype", "docid"]

  /** The fields of a log entry that `get_logs` hands on. */
  const LOG_KEPT_KEYS: set<string> := {"added", "updated", "removed", "timestamp"}

  /** The position of the first of `keys` that `m` lacks. */
  function FirstMissing(m: Doc, keys: seq<string>): (i: nat)
    requires !(Elements(keys) <= m.Keys)
    ensures i < |keys| && keys[i] !in m && forall j :: 0 <= j < i ==> keys[j] in m
  {
    if keys[0] !in m then 0
    else
      assert Elements(keys) == {keys[0]} + Elements(keys[1..]);
      1 + FirstMissing(m, keys[1..])
  }

  /** Removing a key that is not among `keys` does not move the first missing one. */
  lemma {:induction false} FirstMissingIgnoresOtherKeys(m: Doc, k: string, keys: seq<string>)
    requires k !in Elements(keys) && !(Elements(keys) <= m.Keys)
    ensures !(Elements(keys) <= (m - {k}).Keys)
    ensures FirstMissing(m - {k}, keys) == FirstMissing(m, keys)
  {
    assert Elements(keys) == {keys[0]} + Elements(keys[1..]);
    if keys[0] in m {
      FirstMissingIgnoresOtherKeys(m, k, keys[1..]);
    }
  }

  /** A failure after popping the first key leaves what failing on the rest of the
      keys leaves, with the first key also gone. */
  lemma PopStepFails(m: Doc, keys: seq<string>, rest: Doc)
    requires |keys| > 0 && keys[0] in m && keys[0] !in Elements(keys[1..])
    requires !(Elements(keys[1..]) <= (m - {keys[0]}).Keys)
    requires rest == (m - {keys[0]}) - Elements(keys[1..][..FirstMissing(m - {keys[0]}, keys[1..])])
    ensures !(Elements(keys) <= m.Keys)
    ensures rest == m - Elements(keys[..FirstMissing(m, keys)])
  {
    var k, tail := keys[0], keys[1..];
    assert Elements(keys) == {k} + Elements(tail);
    FirstMissingIgnoresOtherKeys(m, k, tail);
    var j := FirstMissing(m, tail);
    assert FirstMissing(m, keys) == j + 1;
    PrefixElements(keys, j);
    RemoveInTwoSteps(m, k, Elements(tail[..j]));
  }

  lemma PrefixElements(keys: seq<string>, j: nat)
    requires j < |keys|
    ensures Elements(keys[..j + 1]) == {keys[0]} + Elements(keys[1..][..j])
  {
    assert keys[..j + 1] == [keys[0]] + keys[1..][..j];
  }

  lemma RemoveInTwoSteps(m: Doc, k: string, s: set<string>)
    ensures (m - {k}) - s == m - ({k} + s)
  {
  }

  /** Pops `keys` from `m` in order, as `dict.pop(key)` does: stops at the first
      missing key (which raises KeyError), having removed the ones before it. */
  function PopAll(m: Doc, keys: seq<string>): (r: (Doc, bool))
    requires NoDuplicates(keys)
    ensures r.1 <==> Elements(keys) <= m.Keys
    ensures r.1 ==> r.0 == m - Elements(keys)
    ensures !r.1 ==> r.0 == m - Elements(keys[..FirstMissing(m, keys)])
    ensures r.0.Keys <= m.Keys && forall k :: k in r.0 ==> r.0[k] == m[k]
  {
    if keys == [] then (m, true)
    else
      assert Elements(keys) == {keys[0]} + Elements(keys[1..]);
      if keys[0] in m then
        var t := PopAll(m - {keys[0]}, keys[1..]);
        assert keys[0] !in Elements(keys[1..]);
        if !t.1 then
          PopStepFails(m, keys, t.0);
          t
        else t
      else
        assert keys[..0] == [];
        (m, false)
  }

  /** The four keys of a log entry that `get_logs` drops, as a set. */
  const LOG_INTERNAL: set<string> := Elements(LOG_INTERNAL_KEYS)

  lemma InternalKeys()
    ensures NoDuplicates(LOG_INTERNAL_KEYS) && Elements(LOG_INTERNAL_KEYS) == LOG_INTERNAL
  {
  }

  /** Cleaning one entry: it fails with KeyError unless all four internal keys are
      present, and otherwise leaves exactly the other keys with their values. */
  function StripEntry(m: Doc): (r: (Doc, bool))
    ensures r.1 <==> LOG_INTERNAL <= m.Keys
    ensures r.1 ==> r.0 == m - LOG_INTERNAL
    ensures !r.1 ==> r.0 == m - Elements(LOG_INTERNAL_KEYS[..FirstMissing(m, LOG_INTERNAL_KEYS)])
  {
    InternalKeys();
    PopAll(m, LOG_INTERNAL_KEYS)
  }

  /** An entry as the saver stores it (with the store's `_rev`) is cleaned without
      error, and keeps its parts and its timestamp. */
  lemma StoredLogEntryStrips(iuid: string, docid: Value, added: seq<string>, updated: map<string, Value>,
                             removed: map<string, Value>, now: string, who: LogDiff.Identity, rev: string)
    ensures var e := LogDiff.EntryDoc(iuid, docid, added, updated, removed, now, who);
      var r := StripEntry(e["_rev" := Str(rev)]);
      && r.1
      && (forall k :: k in LOG_KEPT_KEYS ==> k in r.0 && r.0[k] == e[k])
  {
    var e := LogDiff.EntryDoc(iuid, docid, added, updated, removed, now, who);
    var stored := e["_rev" := Str(rev)];
    assert LOG_INTERNAL <= stored.Keys;
    forall k | k in LOG_KEPT_KEYS ensures k in stored - LOG_INTERNAL && stored[k] == e[k] {
      KeptKeysAreNotInternal(k);
    }
  }

  /** No kept field is one of the internal keys: they differ in their first letter. */
  lemma KeptKeysAreNotInternal(k: string)
    requires k in LOG_KEPT_KEYS
    ensures k !in LOG_INTERNAL
  {
    assert k[0] in {'a', 'u', 'r', 't'};
  }

  /** The clean-up loop of `get_logs`: pops `_id`, `_rev`, `doctype` and `docid` from
      each entry in turn. A missing key raises KeyError, leaving the earlier entries
      cleaned, the failing one partly popped and the later ones untouched. */
  method StripLogEntries(logs: array<Doc>) returns (ok: bool, ghost failedAt: nat)
    modifies logs
    ensures ok <==> forall i :: 0 <= i < logs.Length ==> LOG_INTERNAL <= old(logs[i]).Keys
    ensures ok ==> forall i :: 0 <= i < logs.Length ==> logs[i] == old(logs[i]) - LOG_INTERNAL
    ensures !ok ==> failedAt < logs.Length && !(LOG_INTERNAL <= old(logs[failedAt]).Keys)
    ensures !ok ==> forall i :: 0 <= i < failedAt ==> logs[i] == old(logs[i]) - LOG_INTERNAL
    ensures !ok ==> logs[failedAt] == StripEntry(old(logs[failedAt])).0
    ensures !ok ==> forall i :: failedAt < i < logs.Length ==> logs[i] == old(logs[i])
  {
    failedAt := 0;
    for i := 0 to logs.Length
      invariant forall j :: 0 <= j < i ==> LOG_INTERNAL <= old(logs[j]).Keys
      invariant forall j :: 0 <= j < i ==> logs[j] == old(logs[j]) - LOG_INTERNAL
      invariant forall j :: i <= j < logs.Length ==> logs[j] == old(logs[j])
    {
      var popped := StripEntry(logs[i]);
      logs[i] := popped.0;
      if !popped.1 {
        failedAt := i;
        return false, failedAt;
      }
    }
    ok := true;
  }
}
