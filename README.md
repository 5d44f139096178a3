# webapp-flask-sqlite3-template core, modelled in Dafny

This project models the logic of the Flask web application template (`webapp`) and
proves properties of that model. The main part is the **document saver**
(`webapp/saver.py`), a scoped transaction over one document with two modes:

- **Create mode** mints a new document holding `_id` and `created`.
- **Update mode** snapshots an existing document. The caller's own dict becomes the
  working copy.

On a clean exit the saver does three things in order:

1. It stamps `doctype` and `modified` on the working copy.
2. It puts the document. The store gives a document without `_id` a fresh one, and
   writes the new `_rev` back into the document.
3. It puts one audit log entry that describes the change. As written, this step
   cannot succeed: the entry's doctype is read from a constant the constants object
   does not define, so AttributeError is raised after the document was put (see
   Findings). The model states both the code as written and the corrected step,
   which uses the doctype `log`.

The entry holds a flat, top-level difference between the snapshot and the saved
document in three parts:

- `added` is a list of keys.
- `updated` maps keys to their original values.
- `removed` maps keys to their original values.

The values of hidden fields are masked as `***`. The attachments saver also buffers
attachment deletions (in a set) and additions (in a list). Its `finish` flushes them
after the save.

The smaller parts come from `webapp/utils.py`, `webapp/__init__.py` and
`webapp/about.py`:

- the string-to-boolean rule and the thousands filter;
- the external JSON representation;
- the IUID URL converter;
- HTTP method tunnelling, CSRF token issue and check, and the clean-up of log entries;
- the constants object: its patterns as predicates, roles, statuses, and the refusal
  to rebind anything;
- the masked, sorted settings listing.

The modules follow the program:

- `Values` models Python values, Python's `==` (where `True == 1`), truthiness, and a
  mutable dict object.
- `Constants` models `webapp/__init__.py`.
- `Store` models the database as a ghost log of the writes it receives.
- `LogDiff` holds the specification of the log entry and the steps of `add_log`.
- `Saver` holds `BaseSaver` and `AttachmentsSaver`.
- `Utils` models `webapp/utils.py`.
- `About` models `webapp/about.py`.

These come from outside the model and are passed in as parameters:

- the fresh IUIDs;
- the timestamps;
- the revision tokens that the store returns;
- the current user and the request origin (`Identity`);
- whether the `with` body raised.

The log entry is deliberately simple:

- The diff is flat: only top-level keys are compared.
- `updated` holds only the original value of each changed key.
- The hidden-field marker is `***`.
- `added` lists keys without their values.

## Model

Functions that only define a part of the specification (the pattern predicates
`Constants.IsIdentifier`, `Constants.IsIuid`, `Constants.IsEmail` and their
`...AsWritten` forms, the diff parts `LogDiff.AddedKeys`, `LogDiff.Updated` and
`LogDiff.Removed`, the masking `About.Redacted`) have no contract of their own; the
rows of the lemmas that state their properties name them.

| member | source | states |
|---|---|---|
| Values.PyEqReflexive | webapp/saver.py:67 | Python's `==` on document values is reflexive, including nested lists and dicts |
| Values.PyEqSymmetric | webapp/saver.py:67 | Python's `==` on document values is symmetric, so the `!=` test of `updated` does not depend on the side |
| Values.LowerIsCaseInsensitiveMatch | webapp/utils.py:119-120 | lower-casing a string gives a given lower-case word exactly when the string spells that word in any mixture of cases |
| Constants.GetAttribute | webapp/__init__.py:7-42 | reading an attribute of the constants object gives the bound string for each string constant, the compiled pattern for `ID_RX`, `IUID_RX` and `EMAIL_RX`, the tuple of roles, the list of statuses, and the object's own members; any other name raises AttributeError |
| Constants.AttributeNamesDisjoint | webapp/__init__.py:7-39 | the string constants, the other bound constants and the members every object has are three disjoint sets of names, so each name reads one way |
| Constants.SetAttribute | webapp/__init__.py:38-39 | setting any attribute, under any name and with any value, raises ValueError("Cannot set constant.") |
| Constants.RolesAndStatusesDistinct | webapp/__init__.py:20-29 | the roles are exactly admin and user, and the statuses are three distinct words |
| Constants.EmailShape | webapp/__init__.py:18 | an address accepted by the email pattern's body (`Constants.IsEmail`) has exactly one `@` and no upper-case letter, since the pattern has no `re.I` |
| Constants.AnchoredPatternsAcceptTrailingNewline | webapp/__init__.py:16-18 | as written (`Constants.IdRxAsWritten`, `Constants.IuidRxAsWritten`, `Constants.EmailRxAsWritten`), the identifier, IUID and email patterns accept any valid string followed by a newline, while their bodies reject it |
| Constants.IuidRxAsWrittenAcceptsNewline | webapp/__init__.py:17 | a concrete string, thirty-two `a`s and a newline, is accepted by `IUID_RX` as written though it is not an IUID |
| Constants.CorrectedPatternsRejectNewline | webapp/__init__.py:16-18 | when anchored at the true end of the string (`Constants.IsIdentifier`, `Constants.IsIuid`, `Constants.IsEmail`), no pattern accepts a string that ends in a newline |
| Constants.LogDoctypeAsWrittenFails | webapp/saver.py:83 | `constants.DOCTYPE_LOG` is not an attribute of the constants object, so reading it raises AttributeError |
| Store.WithId | webapp/saver.py:36 | the document as the store keeps it has an `_id`: its own if it had one, and otherwise the fresh identifier, with every other key kept |
| Store.Database.Put | webapp/saver.py:36 | a put gives a document without `_id` the fresh identifier, records the document, then writes the store's new revision into the caller's dict |
| Store.Database.DeleteAttachment | webapp/saver.py:115 | deleting an attachment records the document and filename, returns the store's revision, and leaves the dict untouched |
| Store.Database.PutAttachment | webapp/saver.py:118-121 | putting an attachment records the document and the attachment |
| LogDiff.DiffPartsMembership | webapp/saver.py:64-76 | for the specified parts `LogDiff.AddedKeys`, `LogDiff.Updated` and `LogDiff.Removed`: a key is added iff it is only in the saved document and is not `_id`, `_rev` or `modified`; it is updated iff it is on both sides with unequal values and is not `_rev` or `modified`; it is removed iff it is only in the original |
| LogDiff.DiffPartsDisjoint | webapp/saver.py:64-76 | added, updated and removed are pairwise disjoint |
| LogDiff.DiffPartsCoverAllKeys | webapp/saver.py:64-76 | every key of either side is reported in one part, is unchanged, or is one of the keys the log leaves out |
| LogDiff.RedactionOnlyMasksValues | webapp/saver.py:77-81 | redaction keeps the key set, masks exactly the hidden keys and leaves every other value unchanged |
| LogDiff.ReportedValuesAreOriginals | webapp/saver.py:65-81 | updated and removed carry the original value of each key, or the marker for hidden keys |
| LogDiff.UnchangedDocumentHasEmptyDiff | webapp/saver.py:64-76 | comparing a document with itself reports nothing in any part |
| LogDiff.RestampedDocumentHasEmptyDiff | webapp/saver.py:70-76 | rewriting only `_rev` and `modified` leaves all three parts empty |
| LogDiff.CreateModeDiff | webapp/saver.py:64-69 | against the empty original of create mode, every key except `_id`, `_rev` and `modified` is added, `created` and `doctype` included, and nothing is updated or removed |
| LogDiff.DisjointDocumentsDiff | webapp/saver.py:64-69 | if the two documents share no key, the new keys are added, the old ones are removed and nothing is updated |
| LogDiff.RemoveFirst | webapp/saver.py:70-74 | `list.remove` with the ValueError swallowed: an absent key leaves the list unchanged; otherwise the list loses exactly one element, and a list without duplicates loses exactly that key |
| LogDiff.RemoveFirstTakesFirstOccurrence | webapp/saver.py:70-74 | the element `list.remove` takes out is the first occurrence of the key; the elements before and after it stay in order |
| LogDiff.AddedList | webapp/saver.py:64-74 | the `added` list has no duplicates and names exactly the specified added keys |
| LogDiff.RedactHidden | webapp/saver.py:77-81 | the masking loop leaves updated and removed equal to their specified redactions |
| LogDiff.DiffParts | webapp/saver.py:64-81 | the three parts that add_log builds equal the specification |
| LogDiff.EntryDoc | webapp/saver.py:82-98 | the entry has exactly its ten keys: the saved `_id` as `docid`, the log doctype, the three parts and the timestamp; username is the user's name, or None without a user; inside a request remote_addr is `str()` of the address ("None" when there is none) and user_agent is the agent string, and both are None outside a request |
| Saver.Stamped | webapp/saver.py:34-35 | stamping adds `doctype` and `modified` with the class doctype and the time, and keeps every other key and value |
| Saver.BaseSaver.constructor | webapp/saver.py:17-26 | create mode starts with an empty original and a fresh doc holding exactly `_id` and `created`; update mode uses the caller's own dict and snapshots its contents |
| Saver.BaseSaver.Get | webapp/saver.py:39-40 | `saver[key]` returns the working copy's value, or raises KeyError if the key is absent |
| Saver.BaseSaver.Set | webapp/saver.py:42-43 | `saver[key] = value` writes into the working copy, which is the caller's dict in update mode, and never changes the snapshot |
| Saver.BaseSaver.Exit | webapp/saver.py:31-37 | if the body raised, nothing is written and nothing changes; otherwise the document stamped with the time of the first clock reading (and given an `_id` by the store if it had none) is put first, and then exactly one log entry describing the save, with the time of the second clock reading; the working copy ends as that document with the new revision |
| Saver.BaseSaver.ExitAsWritten | webapp/saver.py:31-37 | as written, a clean exit puts the stamped document and then raises AttributeError from add_log, so the only write is the document |
| Saver.BaseSaver.AddLog | webapp/saver.py:57-99 | the committed entry is the specified log entry, put as the only write; a document without `_id` raises KeyError before anything is put (after a put, as in `Exit`, the document always has one) |
| Saver.BaseSaver.AddLogAsWritten | webapp/saver.py:82-83 | as written, add_log always raises AttributeError at the doctype lookup, before any entry is put |
| Saver.LogEntryDescribesSave | webapp/saver.py:82-88 | a committed entry names the saved document, has the log doctype, reports exactly the specified updated and removed maps, and lists each added key once |
| Saver.UnchangedSaveLogsNothing | webapp/saver.py:31-76 | re-saving, unchanged, a document that already has the saver's doctype logs nothing added, updated or removed |
| Saver.CreatedDocumentLog | webapp/saver.py:17-76 | a new document saved with no further change logs exactly `created` and `doctype` as added |
| Saver.AttachmentsSaver.constructor | webapp/saver.py:105-107 | in both modes, `prepare` starts with an empty deletion set and an empty addition list |
| Saver.AttachmentsSaver.AddAttachment | webapp/saver.py:123-126 | an addition is appended, keeping order and duplicates |
| Saver.AttachmentsSaver.DeleteAttachment | webapp/saver.py:128-129 | a deletion is added to a set, so a repeated filename is deleted once |
| Saver.AttachmentsSaver.Finish | webapp/saver.py:109-121 | each buffered deletion is written exactly once, in some order, and all of them before any addition; `_rev` holds the last deletion's revision; the additions follow in order |
| Saver.AttachmentsSaver.DeleteBuffered | webapp/saver.py:114-116 | the deletion loop writes each filename once, and each write before the next stores the returned revision |
| Saver.AttachmentsSaver.AddBuffered | webapp/saver.py:117-121 | the addition loop writes each buffered attachment in order, and the document is not changed |
| Saver.DeletionsChainRevisions | webapp/saver.py:114-116 | the first deletion is sent with the document as it was; each later one carries the revision that the previous deletion returned |
| Utils.ToBool | webapp/utils.py:116-120 | None or "" is false; otherwise the result is true exactly when the string spells true, t, yes or y in any case |
| Utils.GroupRemoveCommas | webapp/utils.py:189 | removing the commas from a grouped string of digits gives back the digits |
| Utils.GroupWellGrouped | webapp/utils.py:189 | grouping a non-empty string of digits gives a leading group of one to three digits, then groups of a comma and three digits |
| Utils.FormatThousandsCorrect | webapp/utils.py:189 | the formatted int reads back as the same number and is a well-grouped numeral, after a `-` when negative, with no leading zero (zero is "0"); only one string meets all of these |
| Utils.Thousands | webapp/utils.py:186-191 | an int is formatted with thousands separators; a bool, being an int, formats as 1 or 0; any other value is returned unchanged |
| Utils.GetJson | webapp/utils.py:200-211 | the result always has `$id` and `timestamp`, and never `_id`, `_rev` or `doctype`; a present `_id` becomes `iuid`; every other input key is copied and wins over the defaults |
| Utils.IuidToPython | webapp/utils.py:93-98 | a value is accepted iff it is 32 hexadecimal digits, otherwise ValidationError; the result is the same identifier with no upper-case letters |
| Utils.IuidToPythonAsWritten | webapp/utils.py:93-98 | the converter as written agrees with the corrected one on every IUID, fails with ValidationError only where the corrected one fails, and accepts nothing else but an IUID followed by a newline |
| Utils.IuidToPythonIdempotent | webapp/utils.py:95-98 | converting an already converted IUID returns it unchanged |
| Utils.IuidToPythonAsWrittenKeepsNewline | webapp/utils.py:96-98 | as written, any IUID followed by a newline is accepted, and the lower-cased IUID with the newline reaches the view; the corrected converter refuses it |
| Utils.CheckCsrfToken | webapp/utils.py:171-176 | the check passes iff the session holds a non-empty token and the form echoes it; otherwise it aborts with 400 |
| Utils.HttpPost | webapp/utils.py:140-147 | http_POST is true iff the method is POST, the tunnelled method is absent or POST, and the CSRF check passes when required; it aborts with 400 exactly when such a request fails a required check |
| Utils.HttpDelete | webapp/utils.py:153-160 | http_DELETE is true iff the method is DELETE, or POST tunnelling DELETE with the CSRF check passing when required; it aborts with 400 exactly when a POST fails a required check, whatever it tunnels |
| Utils.GetAndPutAreNotTunnelled | webapp/utils.py:136-151 | http_GET and http_PUT answer from the request method alone, whatever the form holds |
| Utils.AtMostOneMethod | webapp/utils.py:136-160 | no request is taken as two of GET, PUT, POST and DELETE |
| Utils.CsrfToken | webapp/utils.py:162-169 | the token is stored only if the session has none, and an existing token is never replaced; the returned field carries the session's token; the new session is `Utils.IssuedSession` of the old one, the function the two CSRF lemmas are about |
| Utils.CsrfIssueIdempotent | webapp/utils.py:162-167 | issuing a token twice leaves the session as issuing once does, and the session then holds a token |
| Utils.CsrfIssueThenCheck | webapp/utils.py:162-176 | a form that posts the issued token back passes the check |
| Utils.LogEntriesAreSelected | webapp/utils.py:18-22 | the evidence for the corrected log doctype `log`: every entry the corrected saver builds is emitted by the logs view under its document's identifier and timestamp |
| Utils.FirstMissing | webapp/utils.py:247-248 | the position of the first key the entry lacks: every key before it is present |
| Utils.PopAll | webapp/utils.py:247-248 | popping the keys in turn succeeds iff all of them are present, and then removes exactly those keys; on failure exactly the keys before the first missing one are removed; every key that is kept keeps its value |
| Utils.StripEntry | webapp/utils.py:247-248 | cleaning one entry fails unless all four internal keys are present, and then leaves exactly the other keys with their values; a failure has popped exactly the internal keys before the first missing one |
| Utils.StoredLogEntryStrips | webapp/utils.py:246-248 | an entry as the saver stores it is cleaned without error, and keeps its parts and its timestamp with their values |
| Utils.StripLogEntries | webapp/utils.py:245-248 | every entry loses exactly its four internal keys, or, at the first entry missing one, KeyError leaves earlier entries cleaned, that entry stripped as `StripEntry` leaves it (the internal keys before its first missing one popped) and later entries untouched |
| About.RedactedProperties | webapp/about.py:42-45 | masking (`About.Redacted`) keeps the setting names, hides exactly the truthy secrets, and leaves falsy or absent secrets and every other setting as configured |
| About.RedactedIdempotent | webapp/about.py:43-45 | masking twice is the same as masking once |
| About.StrLessIrreflexive | webapp/about.py:47 | no string sorts before itself |
| About.StrLessTransitive | webapp/about.py:47 | string order is transitive |
| About.StrLessTotal | webapp/about.py:47 | of two different strings, one sorts before the other |
| About.LeastKey | webapp/about.py:47 | returns the key of a non-empty set that sorts before all the others |
| About.SortedItemsCount | webapp/about.py:47 | strictly sorted pairs name as many distinct keys as there are pairs |
| About.SortedItems | webapp/about.py:47 | lists every entry of a map once, with its value, in strictly increasing key order |
| About.Settings | webapp/about.py:41-47 | the listing is the masked configuration, one pair per setting, in strictly increasing key order; the application's configuration object is not modified |

## Left out

- The hooks `initialize`, `prepare` and `finalize` are modelled as the base class defines them. `initialize` and `finalize` do nothing; `prepare` empties the buffers of the attachments saver. Subclass overrides are not modelled.
- `__enter__` only returns the saver and is not modelled.
- Document values are immutable in the model, so the deep copy of the snapshot is a plain value copy. Mutating a nested value in place through an alias is not modelled, and floats are not modelled.
- The database is modelled only by the writes it receives, the identifier it gives a document without one, and the revisions it returns, as the couchdb2 interface's `put` documents them; that library is not part of this model. Conflict errors, the store's own revision and id checks, and the storage of attachment payloads are not modelled.
- The current user is modelled by its username only. `remote_addr` is a string or None, and `user_agent` is its string form.
- Session values are modelled as strings. `csrf_token` returns the markup as a plain string, and Jinja's Markup wrapper is not modelled.
- `NameConverter` is not modelled, because the `NAME_RX` pattern it uses is not defined in the constants object.
- `get_time`, `Timer`, `get_iuid`, `accept_json`, the logger, `log_access` and mail are not modelled; they are clocks, randomness, float quality values and I/O. The times and IUIDs are parameters instead.
- The CouchDB view query in `get_logs`, `get_dbserver`, `get_db`, the decorators, `url_for`, `jsonify`, `flash_error` and `flash_message` are not modelled; they are calls into Flask and CouchDB.
- `get_software` and `render_template` are not modelled; they are version lookups in foreign libraries and template rendering.
- Utils.ToBool: lower-casing is modelled for ASCII letters only. No other character lower-cases to a letter of true, t, yes or y, so the result is unaffected.
- Saver.BaseSaver.Exit: commits through the corrected `add_log`, with the log doctype `log`; the code as written is `Saver.BaseSaver.ExitAsWritten` (see Findings).
- Saver.BaseSaver.AddLog: uses the corrected log doctype `log`; the code as written is `Saver.BaseSaver.AddLogAsWritten` (see Findings).
- Constants.GetAttribute: the members every object has are the names of a plain Python 3 class instance (later versions add `__getstate__`), returned as names only; compiled patterns are given by their pattern text and flags, not as regex objects.
- Utils.IuidToPython: the corrected pattern is used. The converter as written is `Utils.IuidToPythonAsWritten` (see Findings).
- `webapp/app.py`, `webapp/main.py`, `webapp/config.py`, `webapp/command_line_tool.py`, `webapp/api/about.py` and the tests are not part of this model; they are application wiring, configuration I/O and HTTP tests.

## Findings

| source | as written | input that shows it | evidently intended | confidence | as-written member | corrected member |
|---|---|---|---|---|---|---|
| webapp/saver.py:83 | the log entry's doctype is `constants.DOCTYPE_LOG`, which the constants object (webapp/__init__.py:7-39) does not define | any clean exit from a saver: the document is put, then `add_log` raises AttributeError and no log entry is written | the doctype `log`, the one the logs view at webapp/utils.py:20 selects | high, not executed | Saver.BaseSaver.ExitAsWritten | Saver.BaseSaver.Exit |
| webapp/__init__.py:17 | `IUID_RX` is `^[a-f0-9]{32,32}$`, and Python's `$` also matches before a final newline | thirty-two `a` characters followed by `"\n"` are accepted, and the converter passes the newline on to the view | exactly 32 hexadecimal digits and nothing after them (`\Z`, or `fullmatch`) | medium, not executed | Utils.IuidToPythonAsWrittenKeepsNewline | Utils.IuidToPython |
| webapp/__init__.py:16-18 | `ID_RX` and `EMAIL_RX` end in `$` the same way | any valid identifier or address followed by `"\n"` | the pattern anchored at the true end of the string | medium, not executed | Constants.AnchoredPatternsAcceptTrailingNewline | Constants.CorrectedPatternsRejectNewline |
