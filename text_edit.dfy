/** TextEdit: the text editor adaptor that follows the modified flag of its current document. */
module TextEdits {
  import opened Signals

  /** The native QTextDocument, reduced to its modified flag. */
  class TextDocument {
    var modified: bool

    constructor (modified: bool)
      ensures this.modified == modified
    {
      this.modified := modified;
    }
  }

  class TextEdit {
    /** document(): an editor always has a document. */
    var document: TextDocument
    /** The document whose modificationChanged is forwarded as modifiedChanged. */
    var subscribed: TextDocument?
    var log: seq<Event>

    constructor (initial: TextDocument)
      ensures document == initial && subscribed == initial && log == []
    {
      document := initial;
      subscribed := initial;
      log := [];
    }

    /** modified(): the current document's flag. */
    function Modified(): bool
      reads this, document
    {
      document.modified
    }

    /**
     * setTextDocument: a null document, or the current one, does nothing.
     * Otherwise the forwarding moves to the new document, documentChanged
     * is emitted, and modifiedChanged follows exactly when the old and the
     * new document disagree on their modified flag.
     */
    method SetTextDocument(d: TextDocument?)
      modifies this
      ensures d == null || d == old(document) ==>
                document == old(document) && subscribed == old(subscribed) && log == old(log)
      ensures d != null && d != old(document) ==>
                document == d && subscribed == d
                && log == old(log) + [DocumentChanged]
                          + (if old(document.modified) != d.modified then [ModifiedChanged] else [])
      ensures d != null && d != old(document) ==>
                (ModifiedChanged in log[|old(log)|..] <==> Modified() != old(Modified()))
    {
      if d == null {
        return;
      }
      if document == d {
        return;
      }
      subscribed := null;
      var oldModified := Modified();
      document := d;
      subscribed := d;
      log := log + [DocumentChanged];
      if oldModified != Modified() {
        log := log + [ModifiedChanged];
      }
      assert log[|old(log)|..] == [DocumentChanged] + (if oldModified != Modified() then [ModifiedChanged] else []);
    }
  }
}
