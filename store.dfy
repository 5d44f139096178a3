/** The document database as the saver sees it: every write it receives, in order.
    The identifiers and revision tokens the store chooses are passed in. */
module Store {
  import opened Values

  datatype Attachment = Attachment(filename: string, content: seq<bv8>, mimetype: string)

  /** One write sent to the database, with the document as it was at that moment. */
  datatype Write =
    | PutDoc(doc: Doc)
    | DeleteAttachmentOf(doc: Doc, filename: string)
    | PutAttachmentTo(doc: Doc, attachment: Attachment)

  /** The document as the store keeps it: its own `_id`, or else `newId`. */
  function WithId(d: Doc, newId: string): (r: Doc)
    ensures "_id" in r && r.Keys == d.Keys + {"_id"}
    ensures "_id" in d ==> r == d
    ensures "_id" !in d ==> r["_id"] == Str(newId) && forall k :: k in d ==> r[k] == d[k]
  {
    if "_id" in d then d else d["_id" := Str(newId)]
  }

  class Database {
    ghost var writes: seq<Write>

    constructor ()
      ensures writes == []
    {
      writes := [];
    }

    /** `db.put(d)`: a document without `_id` is first given the fresh identifier
        `newId` in the caller's dict; the document is stored, and the store's new
        revision token is written back into the dict. */
    method Put(d: Dict, newId: string, rev: string)
      modifies this, d
      ensures writes == old(writes) + [PutDoc(WithId(old(d.entries), newId))]
      ensures d.entries == WithId(old(d.entries), newId)["_rev" := Str(rev)]
    {
      if "_id" !in d.entries {
        d.entries := d.entries["_id" := Str(newId)];
      }
      writes := writes + [PutDoc(d.entries)];
      d.entries := d.entries["_rev" := Str(rev)];
    }

    /** `db.delete_attachment(d, filename)`: returns the new revision; `d` is untouched. */
    method DeleteAttachment(d: Dict, filename: string, rev: string) returns (newRev: string)
      modifies this
      ensures writes == old(writes) + [DeleteAttachmentOf(d.entries, filename)]
      ensures newRev == rev
    {
      writes := writes + [DeleteAttachmentOf(d.entries, filename)];
      newRev := rev;
    }

    /** `db.put_attachment(d, content, filename=..., content_type=...)`. */
    method PutAttachment(d: Dict, a: Attachment)
      modifies this
      ensures writes == old(writes) + [PutAttachmentTo(d.entries, a)]
    {
      writes := writes + [PutAttachmentTo(d.entries, a)];
    }
  }
}
