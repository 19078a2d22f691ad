/** The objects behind page edits: the engine, the session with its document handle, and
    the service that edits both. */
module DocumentService {
  import opened SceneGraph
  import opened PageEditing

  /** What the engine raises; nothing changes then. */
  datatype Fault = NoFault | KeyError | IndexError | ValueError

  class PDFEngine {
    var documents: map<string, Pdf>

    constructor ()
      ensures documents == map[]
    {
      documents := map[];
    }

    method OpenDocument(id: string, pdf: Pdf)
      modifies this
      ensures documents == old(documents)[id := pdf]
    {
      documents := documents[id := pdf];
    }

    method CloseDocument(id: string)
      modifies this
      ensures documents == old(documents) - {id}
    {
      documents := documents - {id};
    }

    method AddPage(id: string, index: int, width: real, height: real) returns (fault: Fault)
      requires id in documents ==> 0 <= index <= |documents[id]|
      modifies this
      ensures fault == if id in old(documents) then NoFault else KeyError
      ensures documents == if fault.NoFault? then
                             old(documents)[id := Inserted(old(documents)[id], index, PdfPage(width, height, 0))]
                           else old(documents)
    {
      if id !in documents {
        return KeyError;
      }
      documents := documents[id := documents[id][..index] + [PdfPage(width, height, 0)] + documents[id][index..]];
      fault := NoFault;
    }

    method DeletePage(id: string, number: int) returns (fault: Fault)
      modifies this
      ensures fault == if id !in old(documents) then KeyError
                       else if 1 <= number <= |old(documents)[id]| then NoFault
                       else IndexError
      ensures documents == if fault.NoFault? then old(documents)[id := Without(old(documents)[id], number - 1)]
                           else old(documents)
    {
      if id !in documents {
        return KeyError;
      }
      var pdf := documents[id];
      if number < 1 || number > |pdf| {
        return IndexError;
      }
      documents := documents[id := pdf[..number - 1] + pdf[number..]];
      fault := NoFault;
    }

    /** The rotation is absolute. */
    method RotatePage(id: string, number: int, rotation: int) returns (fault: Fault)
      modifies this
      ensures fault == if id !in old(documents) then KeyError
                       else if !RightAngle(rotation) then ValueError
                       else if 1 <= number <= |old(documents)[id]| then NoFault
                       else IndexError
      ensures documents == if fault.NoFault? then
                             var pdf := old(documents)[id];
                             old(documents)[id := pdf[number - 1 := pdf[number - 1].(rotation := rotation)]]
                           else old(documents)
    {
      if id !in documents {
        return KeyError;
      }
      if !RightAngle(rotation) {
        return ValueError;
      }
      var pdf := documents[id];
      if number < 1 || number > |pdf| {
        return IndexError;
      }
      documents := documents[id := pdf[number - 1 := pdf[number - 1].(rotation := rotation)]];
      fault := NoFault;
    }

    /** Checks the indices as a set only: a repeated index would pass. */
    method ReorderPages(id: string, indices: seq<int>) returns (fault: Fault)
      modifies this
      ensures fault == if id !in old(documents) then KeyError
                       else if (forall k | 0 <= k < |indices| :: 0 <= indices[k] < |old(documents)[id]|)
                               && (forall p | 0 <= p < |old(documents)[id]| :: p in indices) then NoFault
                       else ValueError
      ensures fault.NoFault? ==> documents == old(documents)[id := Selected(old(documents)[id], indices)]
      ensures fault.NoFault? ==>
                |documents[id]| == |indices|
                && forall k | 0 <= k < |indices| :: documents[id][k] == old(documents)[id][indices[k]]
      ensures !fault.NoFault? ==> documents == old(documents)
    {
      if id !in documents {
        return KeyError;
      }
      var pdf := documents[id];
      if !Covers(indices, |pdf|) {
        return ValueError;
      }
      var pages := [];
      for k := 0 to |indices|
        invariant |pages| == k && forall j | 0 <= j < k :: pages[j] == pdf[indices[j]]
      {
        pages := pages + [pdf[indices[k]]];
      }
      assert pages == Selected(pdf, indices);
      documents := documents[id := pages];
      fault := NoFault;
    }
  }

  class LegacyDocumentProxy {
    const documentId: string
    const engine: PDFEngine
    var bytes: Pdf

    constructor (documentId: string, engine: PDFEngine, bytes: Pdf)
      ensures this.documentId == documentId && this.engine == engine && this.bytes == bytes
    {
      this.documentId, this.engine, this.bytes := documentId, engine, bytes;
    }

    method Select(indices: seq<int>) returns (fault: Fault)
      modifies this, engine
      ensures fault == if documentId !in old(engine.documents) then KeyError
                       else if Covers(indices, |old(engine.documents)[documentId]|) then NoFault
                       else ValueError
      ensures fault.NoFault? ==> bytes == Selected(old(engine.documents)[documentId], indices)
                                 && engine.documents == old(engine.documents)[documentId := bytes]
      ensures !fault.NoFault? ==> bytes == old(bytes) && engine.documents == old(engine.documents)
    {
      fault := engine.ReorderPages(documentId, indices);
      if fault.NoFault? {
        bytes := engine.documents[documentId];
      }
    }
  }

  class DocumentSession {
    const proxy: LegacyDocumentProxy
    var bytes: Pdf
    var pages: seq<Page>
    var pageCount: nat

    constructor (proxy: LegacyDocumentProxy, pages: seq<Page>, pageCount: nat)
      ensures this.proxy == proxy && bytes == proxy.bytes && this.pages == pages && this.pageCount == pageCount
    {
      this.proxy, this.bytes, this.pages, this.pageCount := proxy, proxy.bytes, pages, pageCount;
    }

    /** The bytes the engine now has reach the session and its handle. */
    method Propagate()
      requires proxy.documentId in proxy.engine.documents
      modifies this`bytes, proxy
      ensures bytes == proxy.bytes == proxy.engine.documents[proxy.documentId]
    {
      bytes := proxy.engine.documents[proxy.documentId];
      proxy.bytes := bytes;
    }

    method Renumber()
      modifies this`pages
      ensures pages == Renumbered(old(pages))
    {
      for i := 0 to |pages|
        invariant |pages| == |old(pages)|
        invariant forall k | 0 <= k < |pages| ::
                    pages[k] == if k < i then old(pages)[k].(number := k + 1) else old(pages)[k]
      {
        pages := pages[i := pages[i].(number := i + 1)];
      }
    }
  }

  datatype Reply = NoDocument | Edited(outcome: Outcome)

  datatype Upload = Uploaded(session: DocumentSession) | TooLarge | Unreadable | TooManyPages | InvalidPage

  class DocumentService {
    const engine: PDFEngine
    var sessions: map<string, DocumentSession>

    constructor (engine: PDFEngine)
      requires engine.documents == map[]
      ensures Valid() && this.engine == engine && sessions == map[]
    {
      this.engine, sessions := engine, map[];
    }

    /** Each session has its own handle, on a document the engine has loaded. */
    ghost predicate Valid()
      reads this, engine, set id | id in sessions :: sessions[id]
    {
      forall id | id in sessions ::
        sessions[id].proxy.documentId == id && sessions[id].proxy.engine == engine && id in engine.documents
    }

    ghost function View(id: string): Editing
      requires Valid() && id in sessions
      reads this, engine, set i | i in sessions :: sessions[i], sessions[id].proxy
    {
      var s := sessions[id];
      Editing(engine.documents[id], s.bytes, s.proxy.bytes, s.pages, s.pageCount)
    }

    /** The engine's other documents stay as they are. */
    twostate predicate OthersKept(id: string)
      reads engine
    {
      id in engine.documents && engine.documents == old(engine.documents)[id := engine.documents[id]]
    }

    ghost function Touched(id: string): set<object>
      reads this
    {
      {engine} + if id in sessions then {sessions[id], sessions[id].proxy} else {}
    }

    method AddPage(id: string, position: int, width: real, height: real, pageId: string) returns (reply: Reply)
      requires Valid() && (id in sessions ==> Ready(View(id), PageEditing.AddPage(position, width, height, pageId)))
      modifies Touched(id)
      ensures Valid()
      ensures reply.NoDocument? <==> id !in sessions
      ensures reply.NoDocument? ==> engine.documents == old(engine.documents)
      ensures reply.Edited? ==> OthersKept(id)
      ensures reply.Edited? ==> var e := PageEditing.AddPage(position, width, height, pageId);
                                reply.outcome == Result(old(View(id)), e) && View(id) == After(old(View(id)), e)
    {
      if id !in sessions {
        return NoDocument;
      }
      var session := sessions[id];
      var fault := engine.AddPage(id, position - 1, width, height);
      session.Propagate();
      // The size is validated only now, when the scene graph's page is built.
      if width <= 0.0 || height <= 0.0 {
        return Edited(InvalidSize);
      }
      var page := Page(pageId, position, width, height, 0, []);
      session.pages := session.pages[..position - 1] + [page] + session.pages[position - 1..];
      session.Renumber();
      session.pageCount := |session.pages|;
      reply := Edited(Done);
    }

    method DeletePage(id: string, number: int) returns (reply: Reply)
      requires Valid() && (id in sessions ==> Ready(View(id), PageEditing.DeletePage(number)))
      modifies Touched(id)
      ensures Valid()
      ensures reply.NoDocument? <==> id !in sessions
      ensures reply.NoDocument? ==> engine.documents == old(engine.documents)
      ensures reply.Edited? ==> OthersKept(id)
      ensures reply.Edited? ==> var e := PageEditing.DeletePage(number);
                                reply.outcome == Result(old(View(id)), e) && View(id) == After(old(View(id)), e)
    {
      if id !in sessions {
        return NoDocument;
      }
      var session := sessions[id];
      if session.pageCount <= 1 {
        return Edited(LastPage);
      }
      var fault := engine.DeletePage(id, number);
      if !fault.NoFault? {
        return Edited(OutOfRange);
      }
      session.Propagate();
      if number > |session.pages| {
        return Edited(OutOfRange);
      }
      session.pages := session.pages[..number - 1] + session.pages[number..];
      session.Renumber();
      session.pageCount := |session.pages|;
      reply := Edited(Done);
    }

    method RotatePage(id: string, number: int, angle: int) returns (reply: Reply)
      requires Valid() && (id in sessions ==> Ready(View(id), PageEditing.RotatePage(number, angle)))
      modifies Touched(id)
      ensures Valid()
      ensures reply.NoDocument? <==> id !in sessions
      ensures reply.NoDocument? ==> engine.documents == old(engine.documents)
      ensures reply.Edited? ==> OthersKept(id)
      ensures reply.Edited? ==> var e := PageEditing.RotatePage(number, angle);
                                reply.outcome == Result(old(View(id)), e) && View(id) == After(old(View(id)), e)
    {
      if id !in sessions {
        return NoDocument;
      }
      hide Turned, ValidAngle, RightAngle, Result, After;
      RotateRefused(View(id), number, angle);
      if !ValidAngle(angle) {
        return Edited(InvalidAngle);
      }
      // An index from the end is as good as one from the start, until the engine checks.
      var count := |sessions[id].pages|;
      var i := if number <= 0 then number - 1 + count else number - 1;
      if !(0 <= i < count) {
        return Edited(OutOfRange);
      }
      reply := TurnPage(id, number, i, angle);
    }

    method TurnPage(id: string, number: int, i: nat, angle: int) returns (reply: Reply)
      requires Valid() && id in sessions && Ready(View(id), PageEditing.RotatePage(number, angle)) && ValidAngle(angle)
      requires i < |sessions[id].pages| && i == if number <= 0 then number - 1 + |sessions[id].pages| else number - 1
      modifies Touched(id)
      ensures Valid() && OthersKept(id) && reply.Edited?
      ensures var e := PageEditing.RotatePage(number, angle);
              reply.outcome == Result(old(View(id)), e) && View(id) == After(old(View(id)), e)
    {
      hide Turned, ValidAngle, RightAngle, Result, After;
      ghost var before := View(id);
      RotateRefused(before, number, angle);
      var rotation := Turned(sessions[id].pages[i].rotation, angle);
      TurnsCancel(sessions[id].pages[i].rotation, angle);
      var turned := Turn(id, number, i, rotation);
      if turned {
        TurnedPage(before, number, angle, View(id));
      }
      reply := Edited(if turned then Done else OutOfRange);
    }

    /** The engine's page gets the rotation, and then the scene graph's. */
    method Turn(id: string, number: int, i: nat, rotation: int) returns (turned: bool)
      requires Valid() && id in sessions && i < |sessions[id].pages| && RightAngle(rotation)
      modifies Touched(id)
      ensures Valid() && OthersKept(id)
      ensures turned <==> 1 <= number <= |old(engine.documents)[id]|
      ensures !turned ==> View(id) == old(View(id))
      ensures turned ==>
                var pdf := old(engine.documents)[id];
                engine.documents[id] == pdf[number - 1 := pdf[number - 1].(rotation := rotation)]
      ensures turned ==> sessions[id].bytes == sessions[id].proxy.bytes == engine.documents[id]
      ensures turned ==>
                var pages := old(sessions[id].pages);
                sessions[id].pageCount == old(sessions[id].pageCount)
                && sessions[id].pages == pages[i := pages[i].(rotation := rotation)]
    {
      var session := sessions[id];
      var fault := engine.RotatePage(id, number, rotation);
      turned := fault.NoFault?;
      if turned {
        session.Propagate();
        session.pages := session.pages[i := session.pages[i].(rotation := rotation)];
      }
    }

    method ReorderPages(id: string, order: seq<int>) returns (reply: Reply)
      requires Valid() && (id in sessions ==> Ready(View(id), PageEditing.ReorderPages(order)))
      modifies Touched(id)
      ensures Valid()
      ensures reply.NoDocument? <==> id !in sessions
      ensures reply.NoDocument? ==> engine.documents == old(engine.documents)
      ensures reply.Edited? ==> OthersKept(id)
      ensures reply.Edited? ==> var e := PageEditing.ReorderPages(order);
                                reply.outcome == Result(old(View(id)), e) && View(id) == After(old(View(id)), e)
    {
      if id !in sessions {
        return NoDocument;
      }
      var session := sessions[id];
      ghost var before := View(id);
      if !IsPageOrder(order, session.pageCount) {
        return Edited(InvalidOrder);
      }
      OrderInRange(order, session.pageCount);
      var indices := seq(|order|, k requires 0 <= k < |order| => order[k] - 1);
      IndicesCover(order, indices, session.pageCount, |before.engine|);
      var fault := session.proxy.Select(indices);
      if !fault.NoFault? {
        return Edited(InvalidOrder);
      }
      session.bytes := session.proxy.bytes;
      session.pages := Picked(session.pages, order);
      assert session.bytes == Picked(before.engine, order);
      session.Renumber();
      reply := Edited(Done);
    }

    /** The new document's id, and the pages' ids, are parameters. */
    method UploadDocument(id: string, pdf: Pdf, readable: bool, size: nat, maxSize: nat, maxPages: nat,
                          ids: seq<string>)
      returns (upload: Upload)
      requires Valid() && id !in sessions && id !in engine.documents && |ids| == |pdf|
      modifies this, engine
      ensures Valid()
      ensures upload.TooLarge? <==> size > maxSize
      ensures upload.Unreadable? <==> size <= maxSize && !readable
      ensures upload.TooManyPages? <==> size <= maxSize && readable && |pdf| > maxPages
      ensures upload.InvalidPage? <==> size <= maxSize && readable && |pdf| <= maxPages && !WellFormed(pdf)
      ensures upload.Uploaded? ==>
                && sessions == old(sessions)[id := upload.session]
                   && engine.documents == old(engine.documents)[id := pdf]
                && View(id).engine == pdf && (Lockstep(View(id)) <==> |pdf| >= 1)
                && |View(id).pages| == |pdf|
                && forall i | 0 <= i < |pdf| :: View(id).pages[i].id == ids[i] && View(id).pages[i].elements == []
      ensures !upload.Uploaded? ==> sessions == old(sessions) && engine.documents == old(engine.documents)
    {
      if size > maxSize {
        return TooLarge;
      }
      if !readable {
        return Unreadable;
      }
      engine.OpenDocument(id, pdf);
      if |pdf| > maxPages {
        engine.CloseDocument(id);
        assert engine.documents == old(engine.documents);
        return TooManyPages;
      }
      if !WellFormed(pdf) {
        engine.CloseDocument(id);
        assert engine.documents == old(engine.documents);
        return InvalidPage;
      }
      var proxy := new LegacyDocumentProxy(id, engine, pdf);
      var pages := seq(|pdf|, i requires 0 <= i < |pdf| =>
                         Page(ids[i], i + 1, pdf[i].width, pdf[i].height, pdf[i].rotation, []));
      var session := new DocumentSession(proxy, pages, |pdf|);
      sessions := sessions[id := session];
      upload := Uploaded(session);
    }
  }

  lemma RotateRefused(s: Editing, number: int, angle: int)
    requires Ready(s, PageEditing.RotatePage(number, angle))
    ensures var e := PageEditing.RotatePage(number, angle);
            && (!ValidAngle(angle) ==> Result(s, e) == InvalidAngle && After(s, e) == s)
            && (ValidAngle(angle) && !(1 <= number <= |s.engine| && number <= |s.pages|) ==>
                  Result(s, e) == OutOfRange && After(s, e) == s)
  {
  }

  lemma TurnedPage(s: Editing, number: int, angle: int, t: Editing)
    requires Ready(s, PageEditing.RotatePage(number, angle)) && ValidAngle(angle)
    requires 1 <= number <= |s.engine| && number <= |s.pages| && t.pageCount == s.pageCount
    requires var r := Turned(s.pages[number - 1].rotation, angle);
             && t.engine == t.bytes == t.proxy == s.engine[number - 1 := s.engine[number - 1].(rotation := r)]
             && t.pages == s.pages[number - 1 := s.pages[number - 1].(rotation := r)]
    ensures Result(s, PageEditing.RotatePage(number, angle)).Done?
            && t == After(s, PageEditing.RotatePage(number, angle))
  {
    hide Turned, ValidAngle;
  }

  lemma IndicesCover(order: seq<int>, indices: seq<int>, n: nat, m: nat)
    requires IsPageOrder(order, n) && |indices| == |order| && forall k | 0 <= k < |order| :: indices[k] == order[k] - 1
    ensures Covers(indices, m) <==> m == n
  {
    OrderInRange(order, n);
    forall p | 0 <= p < n
      ensures p in indices
    {
      assert indices[Position(order, p + 1)] == p;
    }
    if m < n {
      assert m in indices;
    } else if n < m {
      assert n !in indices;
    }
  }
}
