/** The document saver: a scoped transaction over one document. Opened on no
    document it creates one; opened on an existing document it snapshots it and
    edits it in place. On a clean exit it stamps the document, puts it, and puts
    one audit log entry describing the change (`Exit`, with the corrected log
    doctype); as written, the entry cannot be built (`ExitAsWritten`). */
module Saver {
  import opened Values
  import opened Store
  import opened LogDiff
  import Constants

  /** What `__exit__` did. It never suppresses an exception. */
  datatype ExitOutcome =
    | Reraised                  // an exception left the body: nothing was written
    | Committed(entry: Doc)     // the document and then its log entry were put
    | Raised(error: Error)      // the document was put, then building the entry raised

  /** The document as `__exit__` puts it: the document type and timestamp stamped over the working copy. */
  function Stamped(d: Doc, doctype: Value, now: string): (s: Doc)
    ensures s.Keys == d.Keys + {"doctype", "modified"}
    ensures s["doctype"] == doctype && s["modified"] == Str(now)
    ensures forall k :: k in d && k != "doctype" && k != "modified" ==> s[k] == d[k]
  {
    d["doctype" := doctype]["modified" := Str(now)]
  }

  class BaseSaver {
    /** The class attribute DOCTYPE (None in the base class). */
    const doctype: Value
    /** The class attribute HIDDEN_FIELDS. */
    const hiddenFields: seq<string>
    /** The snapshot the log entry is computed against. */
    var original: Doc
    /** The working copy: in update mode, the caller's own dict object. */
    var doc: Dict

    /** `__init__(doc=None)`. Without a document, a new one holding only a fresh `_id`
        and its `created` time (the `initialize` and `prepare` hooks do nothing here);
        with one, `original` is a deep copy of it and `doc` is that very object. */
    constructor (existing: Option<Dict>, doctype: Value, hiddenFields: seq<string>, iuid: string, now: string)
      ensures this.doctype == doctype && this.hiddenFields == hiddenFields
      ensures existing.None? ==> original == map[] && fresh(doc)
      ensures existing.None? ==> doc.entries == map["_id" := Str(iuid), "created" := Str(now)]
      ensures existing.Some? ==> doc == existing.value && original == existing.value.entries
      ensures existing.Some? ==> doc.entries == old(existing.value.entries)
    {
      this.doctype := doctype;
      this.hiddenFields := hiddenFields;
      if existing.None? {
        original := map[];
        doc := new Dict(map["_id" := Str(iuid), "created" := Str(now)]);
      } else {
        original := existing.value.entries;
        doc := existing.value;
      }
    }

    /** `saver[key]`: raises KeyError when the working copy lacks the key. */
    function Get(key: string): (r: Result<Value>)
      reads this, doc
      ensures r.Success? <==> key in doc.entries
      ensures r.Success? ==> r.value == doc.entries[key]
      ensures r.Failure? ==> r.error == KeyError(key)
    {
      if key in doc.entries then Success(doc.entries[key]) else Failure(KeyError(key))
    }

    /** `saver[key] = value`: writes through to the working copy, so the caller's dict
        sees the change in update mode; the snapshot is never touched. */
    method Set(key: string, value: Value)
      modifies doc
      ensures doc.entries == old(doc.entries)[key := value]
      ensures original == old(original)
    {
      doc.entries := doc.entries[key := value];
    }

    /** `__exit__`. If the body raised, nothing happens and the exception propagates.
        Otherwise (the `finalize` hook doing nothing) the document type and time are
        stamped, the document is put (the store writes its new `_rev` into it), and the
        log entry computed against the saved document is put after it. `docRev` and
        `logRev` are the revisions the store assigns, `docId` the identifier it gives a
        document that has none, `logIuid` the entry's identifier;
        `now` and `logNow` are the two readings of the clock, one stamping `modified`
        and the later one the entry's `timestamp`. */
    method Exit(db: Database, bodyRaised: bool, now: string, docId: string, docRev: string, logIuid: string,
                logRev: string, logNow: string, who: Identity) returns (outcome: ExitOutcome)
      modifies doc, db
      ensures original == old(original)
      ensures bodyRaised ==> outcome == Reraised && doc.entries == old(doc.entries) && db.writes == old(db.writes)
      ensures !bodyRaised ==>
        var put := WithId(Stamped(old(doc.entries), doctype, now), docId);
        && doc.entries == put["_rev" := Str(docRev)]
        && outcome.Committed?
        && IsLogEntry(outcome.entry, original, doc.entries, hiddenFields, logIuid, logNow, who)
        && db.writes == old(db.writes) + [PutDoc(put), PutDoc(outcome.entry)]
    {
      if bodyRaised {
        return Reraised;
      }
      Finalize();
      doc.entries := doc.entries["doctype" := doctype];
      doc.entries := doc.entries["modified" := Str(now)];
      db.Put(doc, docId, docRev);
      outcome := AddLog(db, logNow, logIuid, logRev, who);
    }

    /** `__exit__` as written: the document is stamped and put as in `Exit`, and then
        `add_log` raises AttributeError, so no entry is put and the exception leaves
        the `with` statement after the document was saved. */
    method ExitAsWritten(db: Database, bodyRaised: bool, now: string, docId: string, docRev: string)
      returns (outcome: ExitOutcome)
      modifies doc, db
      ensures original == old(original)
      ensures bodyRaised ==> outcome == Reraised && doc.entries == old(doc.entries) && db.writes == old(db.writes)
      ensures !bodyRaised ==>
        var put := WithId(Stamped(old(doc.entries), doctype, now), docId);
        && doc.entries == put["_rev" := Str(docRev)]
        && outcome == Raised(AttributeError("DOCTYPE_LOG"))
        && db.writes == old(db.writes) + [PutDoc(put)]
    {
      if bodyRaised {
        return Reraised;
      }
      Finalize();
      doc.entries := doc.entries["doctype" := doctype];
      doc.entries := doc.entries["modified" := Str(now)];
      db.Put(doc, docId, docRev);
      outcome := AddLogAsWritten(db);
    }

    /** The `finalize` hook of the base class does nothing. */
    method Finalize()
    {
    }

    /** `add_log`: computes the difference between the snapshot and the working copy
        and puts the log entry. Reading `_id` of a document without one raises KeyError
        before anything is put. */
    method AddLog(db: Database, now: string, logIuid: string, logRev: string, who: Identity)
      returns (outcome: ExitOutcome)
      modifies db
      ensures "_id" in doc.entries ==>
        && outcome.Committed?
        && IsLogEntry(outcome.entry, original, doc.entries, hiddenFields, logIuid, now, who)
        && db.writes == old(db.writes) + [PutDoc(outcome.entry)]
      ensures "_id" !in doc.entries ==> outcome == Raised(KeyError("_id")) && db.writes == old(db.writes)
    {
      var added, updated, removed := DiffParts(original, doc.entries, hiddenFields);
      if "_id" !in doc.entries {
        return Raised(KeyError("_id"));
      }
      var e := EntryDoc(logIuid, doc.entries["_id"], added, updated, removed, now, who);
      var entry := new Dict(e);
      db.Put(entry, logIuid, logRev);
      outcome := Committed(e);
    }

    /** `add_log` as written: after the three parts are computed, reading
        `constants.DOCTYPE_LOG` raises AttributeError, so no entry is ever put (and
        `__exit__` raises after the document itself was saved). */
    method AddLogAsWritten(db: Database) returns (outcome: ExitOutcome)
      ensures outcome == Raised(AttributeError("DOCTYPE_LOG"))
    {
      var added, updated, removed := DiffParts(original, doc.entries, hiddenFields);
      var logDoctype := Constants.LogDoctypeAsWritten();
      Constants.LogDoctypeAsWrittenFails();
      outcome := Raised(logDoctype.error);
    }
  }

  /** A committed entry names the saved document and reports exactly the specified parts. */
  lemma {:induction false} LogEntryDescribesSave(e: Doc, original: Doc, doc: Doc, hidden: seq<string>,
                                                 iuid: string, now: string, who: Identity)
    requires "_id" in doc && IsLogEntry(e, original, doc, hidden, iuid, now, who)
    ensures e["docid"] == doc["_id"] && e["doctype"] == Str(Constants.DOCTYPE_LOG) && e["_id"] == Str(iuid)
    ensures e["updated"] == Object(Updated(original, doc, hidden))
    ensures e["removed"] == Object(Removed(original, doc, hidden))
    ensures e["added"].List? && |e["added"].items| == |AddedKeys(original, doc)|
    ensures forall k :: k in AddedKeys(original, doc) <==> Str(k) in e["added"].items
  {
    var added: seq<string> :| NoDuplicates(added) && Elements(added) == AddedKeys(original, doc) &&
      e == EntryDoc(iuid, doc["_id"], added, Updated(original, doc, hidden), Removed(original, doc, hidden), now, who);
    assert e["added"] == KeyList(added);
    DistinctCardinality(added);
    KeyListNamesKeys(added);
  }

  lemma KeyListNamesKeys(keys: seq<string>)
    ensures forall k :: k in keys <==> Str(k) in KeyList(keys).items
  {
    var items := KeyList(keys).items;
    forall k ensures k in keys <==> Str(k) in items {
      if k in keys {
        var i :| 0 <= i < |keys| && keys[i] == k;
        assert items[i] == Str(k);
      }
      if Str(k) in items {
        var i :| 0 <= i < |items| && items[i] == Str(k);
        assert keys[i] == k;
      }
    }
  }

  /** Saving an existing document that a saver of the same type saved before, without
      changing it, logs an entry with nothing added, updated or removed. */
  lemma {:induction false} UnchangedSaveLogsNothing(original: Doc, doctype: Value, now: string, rev: string,
                                                    hidden: seq<string>)
    requires "doctype" in original && original["doctype"] == doctype
    ensures var saved := Stamped(original, doctype, now)["_rev" := Str(rev)];
      AddedKeys(original, saved) == {} && Updated(original, saved, hidden) == map[] &&
      Removed(original, saved, hidden) == map[]
  {
    assert original["doctype" := doctype] == original;
    RestampedDocumentHasEmptyDiff(original, Str(rev), Str(now), hidden);
  }

  /** A new document saved without further changes logs `created` and `doctype` as
      added, and nothing updated or removed. */
  lemma CreatedDocumentLog(iuid: string, created: string, doctype: Value, now: string, rev: string,
                           hidden: seq<string>)
    ensures var saved := Stamped(map["_id" := Str(iuid), "created" := Str(created)], doctype, now)["_rev" := Str(rev)];
      AddedKeys(map[], saved) == {"created", "doctype"} &&
      Updated(map[], saved, hidden) == map[] && Removed(map[], saved, hidden) == map[]
  {
  }

  /** A saver that also buffers attachment changes: deletions in a set, additions
      in a list, written out by `finish` after the document has been saved. */
  class AttachmentsSaver {
    const saver: BaseSaver
    var deletions: set<string>
    var additions: seq<Attachment>

    /** `__init__` of the base class, whose `prepare` hook here empties both buffers. */
    constructor (existing: Option<Dict>, doctype: Value, hiddenFields: seq<string>, iuid: string, now: string)
      ensures fresh(saver)
      ensures saver.doctype == doctype && saver.hiddenFields == hiddenFields
      ensures existing.None? ==> saver.original == map[] && fresh(saver.doc)
      ensures existing.None? ==> saver.doc.entries == map["_id" := Str(iuid), "created" := Str(now)]
      ensures existing.Some? ==> saver.doc == existing.value && saver.original == existing.value.entries
      ensures deletions == {} && additions == []
    {
      saver := new BaseSaver(existing, doctype, hiddenFields, iuid, now);
      deletions := {};
      additions := [];
    }

    /** Buffers an attachment to add; repeated and duplicate additions are all kept, in order. */
    method AddAttachment(filename: string, content: seq<bv8>, mimetype: string)
      modifies this`additions
      ensures additions == old(additions) + [Attachment(filename, content, mimetype)]
    {
      additions := additions + [Attachment(filename, content, mimetype)];
    }

    /** Buffers an attachment to delete; a filename given twice is deleted once. */
    method DeleteAttachment(filename: string)
      modifies this`deletions
      ensures deletions == old(deletions) + {filename}
    {
      deletions := deletions + {filename};
    }

    /** `finish`: first every buffered deletion, in the set's iteration order, each
        sent with the document as it then is and followed by storing the returned
        revision in `_rev`; then every buffered addition, in order, with the document
        as the deletions left it. `revs` are the revisions the store returns for the
        deletions, one per deletion. */
    method Finish(db: Database, revs: seq<string>) returns (ghost order: seq<string>)
      requires |revs| == |deletions|
      modifies db, saver.doc
      ensures NoDuplicates(order) && Elements(order) == deletions && |order| == |revs|
      ensures saver.doc.entries == RevisedDoc(old(saver.doc.entries), revs, |revs|)
      ensures db.writes == old(db.writes)
        + DeletionWrites(old(saver.doc.entries), order, revs)
        + AdditionWrites(saver.doc.entries, additions)
      ensures deletions == old(deletions) && additions == old(additions)
    {
      order := DeleteBuffered(db, revs);
      AddBuffered(db);
    }

    /** The deletion loop of `finish`. */
    method DeleteBuffered(db: Database, revs: seq<string>) returns (ghost order: seq<string>)
      requires |revs| == |deletions|
      modifies db, saver.doc
      ensures NoDuplicates(order) && Elements(order) == deletions && |order| == |revs|
      ensures saver.doc.entries == RevisedDoc(old(saver.doc.entries), revs, |revs|)
      ensures db.writes == old(db.writes) + DeletionWrites(old(saver.doc.entries), order, revs)
    {
      var d := saver.doc;
      ghost var d0 := d.entries;
      order := [];
      var rest := deletions;
      var i := 0;
      while rest != {}
        invariant i == |order| <= |revs|
        invariant NoDuplicates(order) && Elements(order) <= deletions && rest == deletions - Elements(order)
        invariant d.entries == RevisedDoc(d0, revs, i)
        invariant db.writes == old(db.writes) + DeletionWrites(d0, order, revs)
        decreases rest
      {
        var filename :| filename in rest;
        OrderStep(order, deletions, rest, filename);
        DeletionWritesStep(d0, order, filename, revs);
        var rev := db.DeleteAttachment(d, filename, revs[i]);
        RevisedDocStep(d0, revs, i);
        d.entries := d.entries["_rev" := Str(rev)];
        order := order + [filename];
        rest := rest - {filename};
        i := i + 1;
      }
      DistinctCardinality(order);
    }

    /** The addition loop of `finish`: the document itself is not changed. */
    method AddBuffered(db: Database)
      modifies db
      ensures db.writes == old(db.writes) + AdditionWrites(saver.doc.entries, additions)
    {
      var d := saver.doc;
      for j := 0 to |additions|
        invariant db.writes == old(db.writes) + AdditionWrites(d.entries, additions[..j])
      {
        assert additions[..j + 1] == additions[..j] + [additions[j]];
        db.PutAttachment(d, additions[j]);
      }
      assert additions[..|additions|] == additions;
    }
  }

  /** Taking one more filename from the rest of the set keeps the order duplicate-free
      and within the set, and cannot exceed the set's size. */
  lemma OrderStep(order: seq<string>, deletions: set<string>, rest: set<string>, filename: string)
    requires NoDuplicates(order) && Elements(order) <= deletions && rest == deletions - Elements(order)
    requires filename in rest
    ensures |order| < |deletions|
    ensures NoDuplicates(order + [filename]) && Elements(order + [filename]) <= deletions
    ensures rest - {filename} == deletions - Elements(order + [filename])
  {
    DistinctCardinality(order);
    assert deletions == Elements(order) + rest && Elements(order) !! rest;
    assert {filename} <= rest;
    AppendFresh(order, filename);
  }

  /** The document after the first `n` deletions: `_rev` holds the n-th returned revision. */
  function RevisedDoc(d: Doc, revs: seq<string>, n: nat): Doc
    requires n <= |revs|
  {
    if n == 0 then d else d["_rev" := Str(revs[n - 1])]
  }

  lemma RevisedDocStep(d: Doc, revs: seq<string>, n: nat)
    requires n < |revs|
    ensures RevisedDoc(d, revs, n + 1) == RevisedDoc(d, revs, n)["_rev" := Str(revs[n])]
  {
    if n > 0 {
      var m := d["_rev" := Str(revs[n - 1])];
      assert m["_rev" := Str(revs[n])] == d["_rev" := Str(revs[n])];
    }
  }

  /** The deletion writes: the i-th carries the revision returned by the (i-1)-th. */
  function DeletionWrites(d: Doc, order: seq<string>, revs: seq<string>): seq<Write>
    requires |order| <= |revs|
  {
    seq(|order|, i requires 0 <= i < |order| => DeleteAttachmentOf(RevisedDoc(d, revs, i), order[i]))
  }

  lemma DeletionWritesStep(d: Doc, order: seq<string>, f: string, revs: seq<string>)
    requires |order| < |revs|
    ensures DeletionWrites(d, order + [f], revs) ==
      DeletionWrites(d, order, revs) + [DeleteAttachmentOf(RevisedDoc(d, revs, |order|), f)]
  {
  }

  /** The first deletion is sent with the document as it was; each later one with the
      revision the previous deletion returned. */
  lemma DeletionsChainRevisions(d: Doc, order: seq<string>, revs: seq<string>)
    requires |order| <= |revs|
    ensures |DeletionWrites(d, order, revs)| == |order|
    ensures forall i :: 0 <= i < |order| ==> DeletionWrites(d, order, revs)[i].filename == order[i]
    ensures |order| > 0 ==> DeletionWrites(d, order, revs)[0].doc == d
    ensures forall i :: 0 < i < |order| ==> DeletionWrites(d, order, revs)[i].doc == d["_rev" := Str(revs[i - 1])]
  {
  }

  /** The addition writes: each attachment in order, all against the same document. */
  function AdditionWrites(d: Doc, additions: seq<Attachment>): seq<Write>
  {
    seq(|additions|, i requires 0 <= i < |additions| => PutAttachmentTo(d, additions[i]))
  }
}
