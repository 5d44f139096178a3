/** The application's constants object: version strings, the identifier, IUID and
    email patterns, the user roles and statuses, content types, and the refusal to
    rebind any attribute. */
module Constants {
  import opened Values

  const VERSION := "0.3.3"
  const SOURCE_NAME := "webapp-sqlite3"
  const SOURCE_URL := "https://github.com/pekrau/webapp-flask-sqlite3-template"

  const BOOTSTRAP_VERSION := "4.6.0"
  const JQUERY_VERSION := "3.5.1"
  const DATATABLES_VERSION := "1.10.23"

  const ADMIN := "admin"
  const USER := "user"
  const USER_ROLES: seq<string> := [ADMIN, USER]

  const PENDING := "pending"
  const ENABLED := "enabled"
  const DISABLED := "disabled"
  const USER_STATUSES: seq<string> := [PENDING, ENABLED, DISABLED]

  const HTML_MIMETYPE := "text/html"
  const JSON_MIMETYPE := "application/json"

  const JSON_SCHEMA_URL := "http://json-schema.org/draft-07/schema#"

  /** The string-valued attributes the class binds, by name. */
  const STRING_ATTRIBUTES: map<string, string> := map[
    "VERSION" := VERSION, "SOURCE_NAME" := SOURCE_NAME, "SOURCE_URL" := SOURCE_URL,
    "BOOTSTRAP_VERSION" := BOOTSTRAP_VERSION, "JQUERY_VERSION" := JQUERY_VERSION,
    "DATATABLES_VERSION" := DATATABLES_VERSION,
    "ADMIN" := ADMIN, "USER" := USER,
    "PENDING" := PENDING, "ENABLED" := ENABLED, "DISABLED" := DISABLED,
    "HTML_MIMETYPE" := HTML_MIMETYPE, "JSON_MIMETYPE" := JSON_MIMETYPE,
    "JSON_SCHEMA_URL" := JSON_SCHEMA_URL]

  /** A value an attribute of the constants object can hold: a string, a compiled
      pattern (its source text and whether it ignores case), a tuple or a list of
      strings, or a member every Python object has from `object` and the class. */
  datatype Attribute =
    | Text(s: string)
    | Pattern(source: string, ignoreCase: bool)
    | TupleOf(elements: seq<string>)
    | ListOf(elements: seq<string>)
    | ObjectMember(name: string)

  /** The attributes the class binds that are not strings: the compiled patterns, the
      tuple of roles and the list of statuses. */
  const OTHER_ATTRIBUTES: map<string, Attribute> := map[
    "ID_RX" := Pattern(@"^[a-z][a-z0-9_-]*$", true),
    "IUID_RX" := Pattern(@"^[a-f0-9]{32,32}$", true),
    "EMAIL_RX" := Pattern(@"^[a-z0-9_.+-]+@[a-z0-9-]+\.[a-z0-9-.]+$", false),
    "USER_ROLES" := TupleOf(USER_ROLES),
    "USER_STATUSES" := ListOf(USER_STATUSES)]

  /** The names every instance of a Python 3 class has without binding them: those of
      `object`, the class's `__dict__`, `__module__`, `__weakref__` and `__doc__`, and
      the `__setattr__` the class defines. */
  const OBJECT_MEMBERS: set<string> := {
    "__class__", "__delattr__", "__dict__", "__dir__", "__doc__", "__eq__", "__format__",
    "__ge__", "__getattribute__", "__gt__", "__hash__", "__init__", "__init_subclass__",
    "__le__", "__lt__", "__module__", "__ne__", "__new__", "__reduce__", "__reduce_ex__",
    "__repr__", "__setattr__", "__sizeof__", "__str__", "__subclasshook__", "__weakref__"}

  /** `constants.name`: the string constants and the other bound attributes read as
      bound, the object's own members read as such, and any other name raises
      AttributeError. */
  function GetAttribute(name: string): (r: Result<Attribute>)
    ensures r.Success? <==> name in STRING_ATTRIBUTES || name in OTHER_ATTRIBUTES || name in OBJECT_MEMBERS
    ensures name in STRING_ATTRIBUTES ==> r == Success(Text(STRING_ATTRIBUTES[name]))
    ensures name in OTHER_ATTRIBUTES ==> r == Success(OTHER_ATTRIBUTES[name])
    ensures name in OBJECT_MEMBERS ==> r == Success(ObjectMember(name))
    ensures r.Failure? ==> r.error == AttributeError(name)
  {
    AttributeNamesDisjoint();
    if name in STRING_ATTRIBUTES then Success(Text(STRING_ATTRIBUTES[name]))
    else if name in OTHER_ATTRIBUTES then Success(OTHER_ATTRIBUTES[name])
    else if name in OBJECT_MEMBERS then Success(ObjectMember(name))
    else Failure(AttributeError(name))
  }

  /** The constants the class binds are spelled in capitals and every object member
      starts with `_`, so no name is bound twice and none shadows an object member. */
  lemma StringNamesCapitalized(k: string)
    requires k in STRING_ATTRIBUTES
    ensures 'A' <= k[0] <= 'Z'
  {
  }

  lemma OtherNames(k: string)
    requires k in OTHER_ATTRIBUTES
    ensures 'A' <= k[0] <= 'Z' && k !in STRING_ATTRIBUTES
  {
  }

  lemma MemberNames(k: string)
    requires k in OBJECT_MEMBERS
    ensures k[0] == '_'
  {
  }

  /** The three kinds of names are disjoint, so each name reads one way only. */
  lemma AttributeNamesDisjoint()
    ensures STRING_ATTRIBUTES.Keys !! OTHER_ATTRIBUTES.Keys
    ensures STRING_ATTRIBUTES.Keys !! OBJECT_MEMBERS && OTHER_ATTRIBUTES.Keys !! OBJECT_MEMBERS
  {
    forall k | k in OBJECT_MEMBERS ensures k !in STRING_ATTRIBUTES && k !in OTHER_ATTRIBUTES {
      MemberNames(k);
      if k in STRING_ATTRIBUTES { StringNamesCapitalized(k); }
      if k in OTHER_ATTRIBUTES { OtherNames(k); }
    }
    forall k | k in OTHER_ATTRIBUTES ensures k !in STRING_ATTRIBUTES {
      OtherNames(k);
    }
  }

  /** `constants.x = v` always raises ValueError: nothing is ever rebound. */
  function SetAttribute(name: string, value: Value): (r: Result<()>)
    ensures r == Failure(ValueError("Cannot set constant."))
  {
    Failure(ValueError("Cannot set constant."))
  }

  /** The roles and statuses are the listed words, each once. */
  lemma RolesAndStatusesDistinct()
    ensures |USER_ROLES| == 2 && NoDuplicates(USER_ROLES)
    ensures |USER_STATUSES| == 3 && NoDuplicates(USER_STATUSES)
    ensures ADMIN in USER_ROLES && USER in USER_ROLES
  {
  }

  // ---- The patterns, as predicates ----

  predicate IsHexDigit(c: char)
  {
    IsDigit(c) || 'a' <= c <= 'f' || 'A' <= c <= 'F'
  }

  /** `[a-z]` under `re.I`: Python matches the 52 ASCII letters and four more code
      points whose case forms are ASCII letters: U+0130, U+0131, U+017F, U+212A. */
  predicate IsLetterIgnoringCase(c: char)
  {
    IsAsciiLower(c) || IsAsciiUpper(c) || c == '\U{0130}' || c == '\U{0131}' || c == '\U{017F}' || c == '\U{212A}'
  }

  /** The body of `ID_RX`: a letter, then letters, digits, `_` or `-`. */
  predicate IsIdentifier(s: string)
  {
    |s| > 0 && IsLetterIgnoringCase(s[0]) &&
    forall i :: 1 <= i < |s| ==> IsLetterIgnoringCase(s[i]) || IsDigit(s[i]) || s[i] == '_' || s[i] == '-'
  }

  /** The body of `IUID_RX`: exactly 32 hexadecimal digits in either case. */
  predicate IsIuid(s: string)
  {
    |s| == 32 && forall i :: 0 <= i < |s| ==> IsHexDigit(s[i])
  }

  predicate IsEmailLocalChar(c: char)
  {
    IsAsciiLower(c) || IsDigit(c) || c == '_' || c == '.' || c == '+' || c == '-'
  }

  predicate IsEmailLabelChar(c: char)
  {
    IsAsciiLower(c) || IsDigit(c) || c == '-'
  }

  predicate IsEmailTailChar(c: char)
  {
    IsAsciiLower(c) || IsDigit(c) || c == '-' || c == '.'
  }

  predicate AllChars(s: string, p: char -> bool)
  {
    forall i :: 0 <= i < |s| ==> p(s[i])
  }

  /** The body of `EMAIL_RX` (no `re.I`): a local part, `@`, a label without dots,
      `.`, and a tail; each part non-empty. */
  predicate IsEmail(s: string)
  {
    exists at, dot :: 0 < at && at + 1 < dot && dot + 1 < |s| &&
      s[at] == '@' && s[dot] == '.' &&
      AllChars(s[..at], IsEmailLocalChar) &&
      AllChars(s[at + 1..dot], IsEmailLabelChar) &&
      AllChars(s[dot + 1..], IsEmailTailChar)
  }

  /** An address that `EMAIL_RX` accepts holds one `@` and no upper-case letter. */
  lemma EmailShape(s: string)
    requires IsEmail(s)
    ensures forall i :: 0 <= i < |s| ==> !IsAsciiUpper(s[i])
    ensures exists at :: 0 < at < |s| - 1 && s[at] == '@' && '@' !in s[..at] && '@' !in s[at + 1..]
  {
    var at, dot :| 0 < at && at + 1 < dot && dot + 1 < |s| &&
      s[at] == '@' && s[dot] == '.' &&
      AllChars(s[..at], IsEmailLocalChar) &&
      AllChars(s[at + 1..dot], IsEmailLabelChar) &&
      AllChars(s[dot + 1..], IsEmailTailChar);
    forall i | 0 <= i < |s| ensures !IsAsciiUpper(s[i]) && (i != at ==> s[i] != '@') {
      if i < at {
        assert s[..at][i] == s[i];
      } else if at < i < dot {
        assert s[at + 1..dot][i - at - 1] == s[i];
      } else if dot < i {
        assert s[dot + 1..][i - dot - 1] == s[i];
      }
    }
    assert '@' !in s[at + 1..] by {
      var rest := s[at + 1..];
      forall j | 0 <= j < |rest| ensures rest[j] != '@' {
        assert rest[j] == s[at + 1 + j];
      }
    }
  }

  /** Python's `$` also matches just before a final newline, so `re.match` with
      `^body$` accepts `t` and `t + "\n"` for every `t` the body accepts. */
  predicate MatchesAnchoredAsWritten(s: string, body: string -> bool)
  {
    body(s) || (|s| > 0 && s[|s| - 1] == '\n' && body(s[..|s| - 1]))
  }

  predicate IdRxAsWritten(s: string)
  {
    MatchesAnchoredAsWritten(s, IsIdentifier)
  }

  predicate IuidRxAsWritten(s: string)
  {
    MatchesAnchoredAsWritten(s, IsIuid)
  }

  predicate EmailRxAsWritten(s: string)
  {
    MatchesAnchoredAsWritten(s, IsEmail)
  }

  /** The three patterns as written accept a valid string followed by a newline. */
  lemma AnchoredPatternsAcceptTrailingNewline(t: string)
    ensures IsIdentifier(t) ==> IdRxAsWritten(t + "\n") && !IsIdentifier(t + "\n")
    ensures IsIuid(t) ==> IuidRxAsWritten(t + "\n") && !IsIuid(t + "\n")
    ensures IsEmail(t) ==> EmailRxAsWritten(t + "\n") && !IsEmail(t + "\n")
  {
    var u := t + "\n";
    assert u[..|u| - 1] == t;
    assert u[|u| - 1] == '\n';
    if IsEmail(t) {
      CorrectedPatternsRejectNewline(u);
    }
  }

  /** A concrete case: thirty-two `a`s and a newline pass `IUID_RX` as written. */
  lemma IuidRxAsWrittenAcceptsNewline()
    ensures IuidRxAsWritten(seq(32, _ => 'a') + "\n")
    ensures !IsIuid(seq(32, _ => 'a') + "\n")
  {
    AnchoredPatternsAcceptTrailingNewline(seq(32, _ => 'a'));
  }

  /** The corrected patterns (anchored at the true end of the string) accept exactly
      the strings their bodies describe, and never a string ending in a newline. */
  lemma CorrectedPatternsRejectNewline(s: string)
    requires |s| > 0 && s[|s| - 1] == '\n'
    ensures !IsIdentifier(s) && !IsIuid(s) && !IsEmail(s)
  {
  }

  /** The log document type. The Constants class in webapp/__init__.py does not bind
      DOCTYPE_LOG; the value is the one the log view selects on (see Utils.LogsViewSelects). */
  const DOCTYPE_LOG := "log"

  /** What `constants.DOCTYPE_LOG` evaluates to with the class as written. */
  function LogDoctypeAsWritten(): (r: Result<Attribute>)
  {
    GetAttribute("DOCTYPE_LOG")
  }

  /** Reading DOCTYPE_LOG from the constants object as written raises AttributeError. */
  lemma LogDoctypeAsWrittenFails()
    ensures LogDoctypeAsWritten() == Failure(AttributeError("DOCTYPE_LOG"))
  {
  }
}
