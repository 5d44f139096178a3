/** The audit log entry a saver writes on commit: a flat, top-level difference
    between the snapshot taken when the saver opened and the document it saved.
    `added` lists keys; `updated` and `removed` map keys to their ORIGINAL values;
    the values of hidden fields are replaced by a marker. */
module LogDiff {
  import opened Values
  import Constants

  const REDACTED := "***"

  /** Keys never reported as added: the identifier, the revision and the timestamp. */
  const NOT_ADDED: set<string> := {"_id", "_rev", "modified"}

  /** Keys never reported as updated: the revision and the timestamp. */
  const NOT_UPDATED: set<string> := {"_rev", "modified"}

  // ---- The specification of the three parts ----

  function AddedKeys(original: Doc, doc: Doc): set<string>
  {
    doc.Keys - original.Keys - NOT_ADDED
  }

  /** Keys present on both sides whose values differ under Python's `!=`, with their original values. */
  function Changed(original: Doc, doc: Doc): map<string, Value>
  {
    map k | k in doc.Keys * original.Keys && !PyEq(doc[k], original[k]) :: original[k]
  }

  /** Keys present only in the original, with their original values. */
  function Dropped(original: Doc, doc: Doc): map<string, Value>
  {
    map k | k in original.Keys - doc.Keys :: original[k]
  }

  /** Replaces the value of every key listed in `hidden` by the marker. */
  function Redact(m: map<string, Value>, hidden: seq<string>): map<string, Value>
  {
    map k | k in m :: if k in hidden then Str(REDACTED) else m[k]
  }

  function Updated(original: Doc, doc: Doc, hidden: seq<string>): map<string, Value>
  {
    Redact(Changed(original, doc) - NOT_UPDATED, hidden)
  }

  function Removed(original: Doc, doc: Doc, hidden: seq<string>): map<string, Value>
  {
    Redact(Dropped(original, doc), hidden)
  }

  // ---- Properties of the specification ----

  /** Each part is characterised key by key. */
  lemma DiffPartsMembership(original: Doc, doc: Doc, hidden: seq<string>, k: string)
    ensures k in AddedKeys(original, doc) <==> k in doc && k !in original && k !in NOT_ADDED
    ensures k in Updated(original, doc, hidden) <==>
      k in doc && k in original && !PyEq(doc[k], original[k]) && k !in NOT_UPDATED
    ensures k in Removed(original, doc, hidden) <==> k in original && k !in doc
  {
  }

  /** No key is reported in two parts. */
  lemma DiffPartsDisjoint(original: Doc, doc: Doc, hidden: seq<string>)
    ensures AddedKeys(original, doc) !! Updated(original, doc, hidden).Keys
    ensures AddedKeys(original, doc) !! Removed(original, doc, hidden).Keys
    ensures Updated(original, doc, hidden).Keys !! Removed(original, doc, hidden).Keys
  {
  }

  /** Every key of either side is reported in exactly the part its change calls for,
      or is unchanged, or is one of the keys the log leaves out. */
  lemma DiffPartsCoverAllKeys(original: Doc, doc: Doc, hidden: seq<string>)
    ensures doc.Keys + original.Keys ==
      AddedKeys(original, doc) + Updated(original, doc, hidden).Keys + Removed(original, doc, hidden).Keys
      + (set k | k in doc && k in original && PyEq(doc[k], original[k]))
      + (NOT_ADDED * (doc.Keys - original.Keys))
      + (NOT_UPDATED * doc.Keys * original.Keys)
  {
  }

  /** Redaction keeps the keys, replaces exactly the hidden ones by the marker and
      leaves every other value as it was. */
  lemma RedactionOnlyMasksValues(m: map<string, Value>, hidden: seq<string>)
    ensures Redact(m, hidden).Keys == m.Keys
    ensures forall k :: k in m && k in hidden ==> Redact(m, hidden)[k] == Str(REDACTED)
    ensures forall k :: k in m && k !in hidden ==> Redact(m, hidden)[k] == m[k]
  {
  }

  /** `updated` and `removed` hold the original values, masked where the field is hidden. */
  lemma ReportedValuesAreOriginals(original: Doc, doc: Doc, hidden: seq<string>)
    ensures forall k :: k in Updated(original, doc, hidden) ==>
      Updated(original, doc, hidden)[k] == (if k in hidden then Str(REDACTED) else original[k])
    ensures forall k :: k in Removed(original, doc, hidden) ==>
      Removed(original, doc, hidden)[k] == (if k in hidden then Str(REDACTED) else original[k])
  {
  }

  /** Comparing a document with an unchanged copy of itself reports nothing. */
  lemma {:induction false} UnchangedDocumentHasEmptyDiff(d: Doc, hidden: seq<string>)
    ensures AddedKeys(d, d) == {}
    ensures Updated(d, d, hidden) == map[]
    ensures Removed(d, d, hidden) == map[]
  {
    forall k | k in d ensures PyEq(d[k], d[k]) {
      PyEqReflexive(d[k]);
    }
    assert Changed(d, d) == map[];
  }

  /** Rewriting only `_rev` and `modified`, the two keys every commit rewrites,
      gives an empty diff: such a save reports nothing added, updated or removed. */
  lemma {:induction false} RestampedDocumentHasEmptyDiff(d: Doc, rev: Value, now: Value, hidden: seq<string>)
    ensures AddedKeys(d, d["modified" := now]["_rev" := rev]) == {}
    ensures Updated(d, d["modified" := now]["_rev" := rev], hidden) == map[]
    ensures Removed(d, d["modified" := now]["_rev" := rev], hidden) == map[]
  {
    var e := d["modified" := now]["_rev" := rev];
    forall k | k in d && k !in NOT_UPDATED ensures PyEq(e[k], d[k]) {
      PyEqReflexive(d[k]);
    }
    assert Changed(d, e) - NOT_UPDATED == map[];
  }

  /** In create mode the original is empty, so every key of the saved document except
      `_id`, `_rev` and `modified` is added, and nothing is updated or removed. */
  lemma CreateModeDiff(doc: Doc, hidden: seq<string>)
    ensures AddedKeys(map[], doc) == doc.Keys - NOT_ADDED
    ensures "created" in doc && "doctype" in doc ==> "created" in AddedKeys(map[], doc) && "doctype" in AddedKeys(map[], doc)
    ensures Updated(map[], doc, hidden) == map[] && Removed(map[], doc, hidden) == map[]
  {
  }

  /** Documents with no key in common: the new keys are added, the old ones removed. */
  lemma DisjointDocumentsDiff(original: Doc, doc: Doc, hidden: seq<string>)
    requires original.Keys !! doc.Keys
    ensures AddedKeys(original, doc) == doc.Keys - NOT_ADDED
    ensures Updated(original, doc, hidden) == map[]
    ensures Removed(original, doc, hidden).Keys == original.Keys
  {
  }

  // ---- add_log's computation, step by step ----

  /** `list.remove(x)` with the ValueError for an absent `x` swallowed: the first
      occurrence of `x` goes, everything else stays in order. */
  function RemoveFirst(s: seq<string>, x: string): (r: seq<string>)
    ensures x !in s ==> r == s
    ensures x in s ==> |r| == |s| - 1
    ensures Elements(r) <= Elements(s)
    ensures NoDuplicates(s) ==> NoDuplicates(r) && Elements(r) == Elements(s) - {x}
  {
    if s == [] then []
    else if s[0] == x then
      assert forall y :: y in s[1..] ==> y in s;
      s[1..]
    else
      var t := RemoveFirst(s[1..], x);
      assert s == [s[0]] + s[1..];
      assert Elements([s[0]] + t) == {s[0]} + Elements(t);
      assert Elements(s) == {s[0]} + Elements(s[1..]);
      assert NoDuplicates(s) ==> s[0] !in Elements(s[1..]) && NoDuplicates(s[1..]);
      [s[0]] + t
  }

  /** The position of the first occurrence of `x` in `s`. */
  function FirstIndex(s: seq<string>, x: string): (i: nat)
    requires x in s
    ensures i < |s| && s[i] == x && x !in s[..i]
  {
    if s[0] == x then 0
    else
      assert x in s[1..];
      var j := FirstIndex(s[1..], x);
      assert s[..j + 1] == [s[0]] + s[1..][..j];
      j + 1
  }

  /** The element removed is the first occurrence of `x`: everything before it and
      everything after it stays, in order. */
  lemma {:induction false} RemoveFirstTakesFirstOccurrence(s: seq<string>, x: string)
    requires x in s
    ensures RemoveFirst(s, x) == s[..FirstIndex(s, x)] + s[FirstIndex(s, x) + 1..]
  {
    if s[0] != x {
      var t := s[1..];
      assert x in t;
      RemoveFirstTakesFirstOccurrence(t, x);
      ConsSplit(s, FirstIndex(t, x));
    }
  }

  /** Splitting `s` after its head and index `j` of the tail. */
  lemma ConsSplit(s: seq<string>, j: nat)
    requires j < |s| - 1
    ensures s[..j + 1] == [s[0]] + s[1..][..j]
    ensures s[..j + 1] + s[j + 2..] == [s[0]] + (s[1..][..j] + s[1..][j + 1..])
  {
  }

  /** `added` as add_log builds it: the key difference turned into a list (in
      whatever order the set yields), then `_id`, `_rev` and `modified` removed from
      it one at a time. */
  method AddedList(original: Doc, doc: Doc) returns (added: seq<string>)
    ensures NoDuplicates(added) && Elements(added) == AddedKeys(original, doc)
  {
    added := [];
    var rest := doc.Keys - original.Keys;
    while rest != {}
      invariant NoDuplicates(added)
      invariant Elements(added) !! rest
      invariant Elements(added) + rest == doc.Keys - original.Keys
      decreases rest
    {
      var k :| k in rest;
      added := added + [k];
      rest := rest - {k};
    }
    var notAdded := ["_id", "_rev", "modified"];
    for i := 0 to |notAdded|
      invariant NoDuplicates(added)
      invariant Elements(added) == doc.Keys - original.Keys - Elements(notAdded[..i])
    {
      assert Elements(notAdded[..i + 1]) == Elements(notAdded[..i]) + {notAdded[i]} by {
        assert notAdded[..i + 1] == notAdded[..i] + [notAdded[i]];
      }
      added := RemoveFirst(added, notAdded[i]);
    }
    assert notAdded[..|notAdded|] == notAdded;
  }

  /** The redaction loop: for each hidden field, the value in `updated` and in
      `removed` is overwritten with the marker where the key is present. */
  method RedactHidden(updated0: map<string, Value>, removed0: map<string, Value>, hidden: seq<string>)
    returns (updated: map<string, Value>, removed: map<string, Value>)
    ensures updated == Redact(updated0, hidden)
    ensures removed == Redact(removed0, hidden)
  {
    updated, removed := updated0, removed0;
    for i := 0 to |hidden|
      invariant updated == Redact(updated0, hidden[..i])
      invariant removed == Redact(removed0, hidden[..i])
    {
      assert hidden[..i + 1] == hidden[..i] + [hidden[i]];
      var key := hidden[i];
      if key in updated {
        updated := updated[key := Str(REDACTED)];
      }
      if key in removed {
        removed := removed[key := Str(REDACTED)];
      }
    }
    assert hidden[..|hidden|] == hidden;
  }

  /** Builds `added`, `updated` and `removed` as add_log does: the list of new keys,
      the two dict comprehensions, the pops of `_rev` and `modified`, then the
      redaction of the hidden fields. */
  method DiffParts(original: Doc, doc: Doc, hidden: seq<string>)
    returns (added: seq<string>, updated: map<string, Value>, removed: map<string, Value>)
    ensures NoDuplicates(added) && Elements(added) == AddedKeys(original, doc)
    ensures updated == Updated(original, doc, hidden)
    ensures removed == Removed(original, doc, hidden)
  {
    added := AddedList(original, doc);
    updated := map k | k in doc.Keys * original.Keys && !PyEq(doc[k], original[k]) :: original[k];
    removed := map k | k in original.Keys - doc.Keys :: original[k];
    updated := updated - {"_rev"};
    updated := updated - {"modified"};
    assert updated == Changed(original, doc) - NOT_UPDATED;
    updated, removed := RedactHidden(updated, removed, hidden);
  }

  // ---- The log entry ----

  /** What the request context supplies: the client address (which may be None)
      and the User-Agent header. */
  datatype RequestOrigin = RequestOrigin(remoteAddr: Option<string>, userAgent: string)

  /** The ambient identity: the username of the logged-in user, if any, and the
      request being served, if the code runs inside one. */
  datatype Identity = Identity(username: Option<string>, request: Option<RequestOrigin>)

  function KeyList(keys: seq<string>): (v: Value)
    ensures v.List? && |v.items| == |keys|
    ensures forall i :: 0 <= i < |keys| ==> v.items[i] == Str(keys[i])
  {
    List(seq(|keys|, i requires 0 <= i < |keys| => Str(keys[i])))
  }

  /** The log entry document add_log puts: a fresh identifier, the log document type,
      the saved document's identifier, the three parts, a timestamp, the username and
      the request's origin (`str()` of each, so a missing address reads "None"). */
  function EntryDoc(iuid: string, docid: Value, added: seq<string>, updated: map<string, Value>,
                    removed: map<string, Value>, now: string, who: Identity): (e: Doc)
    ensures e.Keys == {"_id", "doctype", "docid", "added", "updated", "removed", "timestamp",
                       "username", "remote_addr", "user_agent"}
    ensures e["_id"] == Str(iuid) && e["docid"] == docid && e["doctype"] == Str(Constants.DOCTYPE_LOG)
    ensures e["timestamp"] == Str(now)
    ensures e["added"] == KeyList(added) && e["updated"] == Object(updated) && e["removed"] == Object(removed)
    ensures e["username"] == Null <==> who.username.None?
    ensures who.username.Some? ==> e["username"] == Str(who.username.value)
    ensures e["remote_addr"] == Null <==> who.request.None?
    ensures e["user_agent"] == Null <==> who.request.None?
    ensures who.request.Some? ==>
      && e["remote_addr"] == Str(if who.request.value.remoteAddr.Some? then who.request.value.remoteAddr.value else "None")
      && e["user_agent"] == Str(who.request.value.userAgent)
  {
    map["_id" := Str(iuid),
        "doctype" := Str(Constants.DOCTYPE_LOG),
        "docid" := docid,
        "added" := KeyList(added),
        "updated" := Object(updated),
        "removed" := Object(removed),
        "timestamp" := Str(now),
        "username" := (match who.username case Some(u) => Str(u) case None => Null),
        "remote_addr" := (match who.request
                          case Some(r) => Str(match r.remoteAddr case Some(a) => a case None => "None")
                          case None => Null),
        "user_agent" := (match who.request case Some(r) => Str(r.userAgent) case None => Null)]
  }

  /** `e` is the log entry for saving `doc` over `original`: the three parts are the
      specified ones, with the added keys listed once each in some order. */
  ghost predicate IsLogEntry(e: Doc, original: Doc, doc: Doc, hidden: seq<string>,
                             iuid: string, now: string, who: Identity)
    requires "_id" in doc
  {
    exists added: seq<string> {:trigger EntryDoc(iuid, doc["_id"], added, Updated(original, doc, hidden), Removed(original, doc, hidden), now, who)} ::
      NoDuplicates(added) && Elements(added) == AddedKeys(original, doc) &&
      e == EntryDoc(iuid, doc["_id"], added, Updated(original, doc, hidden), Removed(original, doc, hidden), now, who)
  }
}
