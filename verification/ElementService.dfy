/** The service that edits elements in the live session's pages. */
module ElementService {
  import opened Wrappers
  import opened SceneGraph
  import opened Elements
  import DocumentService

  datatype Reply = NoDocument | Edited(outcome: Outcome)

  datatype Entry = Entry(edit: Edit, reply: Reply)

  class ElementService {
    var sessions: map<string, DocumentService.DocumentSession>

    constructor (sessions: map<string, DocumentService.DocumentSession>)
      ensures this.sessions == sessions
    {
      this.sessions := sessions;
    }

    /** The pages of an open document, numbered in order. */
    ghost predicate Ready(document: string)
      reads this, if document in sessions then {sessions[document]} else {}
    {
      document in sessions ==> Numbered(sessions[document].pages)
    }

    /** Page by page, element by element: the element and the number of its page. */
    method GetElement(session: DocumentService.DocumentSession, id: string) returns (found: Option<(Element, int)>)
      requires Numbered(session.pages)
      ensures found.None? <==> Locate(session.pages, id).Nowhere?
      ensures found.Some? ==> var at := Locate(session.pages, id);
                              found.value == (session.pages[at.page].elements[at.index], at.page + 1)
    {
      var pages := session.pages;
      var p := 0;
      while p < |pages|
        invariant 0 <= p <= |pages|
        invariant Locate(pages, id) == Shifted(Locate(pages[p..], id), p)
      {
        var elements := pages[p].elements;
        var i := 0;
        while i < |elements|
          invariant 0 <= i <= |elements|
          invariant IndexOf(elements, id) == i + IndexOf(elements[i..], id)
        {
          if elements[i].id == id {
            return Some((elements[i], pages[p].number));
          }
          i := i + 1;
        }
        p := p + 1;
      }
      found := None;
    }

    method CreateElement(document: string, number: int, draft: Draft, generated: string) returns (reply: Reply)
      requires Ready(document)
      modifies if document in sessions then {sessions[document]} else {}
      ensures Ready(document)
      ensures reply.NoDocument? <==> document !in sessions
      ensures reply.Edited? ==> Applied(old(sessions[document].pages), Create(number, draft, generated),
                                        sessions[document].pages, reply.outcome)
    {
      if document !in sessions {
        return NoDocument;
      }
      var session := sessions[document];
      if number < 1 || number > |session.pages| {
        return Edited(PageNotFound);
      }
      if draft.kind.None? {
        return Edited(UnknownType);
      }
      if !draft.valid {
        return Edited(Rejected);
      }
      var element := Built(draft, generated);
      session.pages := Appended(session.pages, number - 1, element);
      reply := Edited(Done);
    }

    method UpdateElement(document: string, id: string, change: Option<Change>) returns (reply: Reply)
      requires Ready(document)
      modifies if document in sessions then {sessions[document]} else {}
      ensures Ready(document)
      ensures reply.NoDocument? <==> document !in sessions
      ensures reply.Edited? ==>
                Applied(old(sessions[document].pages), Update(id, change), sessions[document].pages, reply.outcome)
    {
      if document !in sessions {
        return NoDocument;
      }
      var session := sessions[document];
      var found := GetElement(session, id);
      if found.None? {
        return Edited(ElementNotFound);
      }
      var (element, number) := found.value;
      var page := session.pages[number - 1];
      var i := 0;
      while page.elements[i].id != id
        invariant 0 <= i <= IndexOf(page.elements, id)
        decreases |page.elements| - i
      {
        i := i + 1;
      }
      if change.None? {
        return Edited(Rejected);
      }
      var updated := element.(bounds := change.value.bounds, content := change.value.content);
      session.pages := session.pages[number - 1 := page.(elements := page.elements[i := updated])];
      reply := Edited(Done);
    }

    method DeleteElement(document: string, id: string) returns (reply: Reply)
      requires Ready(document)
      modifies if document in sessions then {sessions[document]} else {}
      ensures Ready(document)
      ensures reply.NoDocument? <==> document !in sessions
      ensures reply.Edited? ==>
                Applied(old(sessions[document].pages), Delete(id), sessions[document].pages, reply.outcome)
    {
      if document !in sessions {
        return NoDocument;
      }
      var session := sessions[document];
      var found := GetElement(session, id);
      if found.None? {
        return Edited(ElementNotFound);
      }
      session.pages := Dropped(session.pages, found.value.1 - 1, id);
      reply := Edited(Done);
    }

    method MoveElement(document: string, id: string, number: int, bounds: Option<Bounds>) returns (reply: Reply)
      requires Ready(document)
      modifies if document in sessions then {sessions[document]} else {}
      ensures Ready(document)
      ensures reply.NoDocument? <==> document !in sessions
      ensures reply.Edited? ==>
                Applied(old(sessions[document].pages), Move(id, number, bounds), sessions[document].pages,
                        reply.outcome)
    {
      if document !in sessions {
        return NoDocument;
      }
      var session := sessions[document];
      if number < 1 || number > |session.pages| {
        return Edited(PageNotFound);
      }
      var found := GetElement(session, id);
      if found.None? {
        return Edited(ElementNotFound);
      }
      var (element, source) := found.value;
      session.pages := Dropped(session.pages, source - 1, id);
      if bounds.Some? {
        element := element.(bounds := bounds.value);
      }
      session.pages := Appended(session.pages, number - 1, element);
      reply := Edited(Done);
    }

    /** Copies through the creation of a new element. */
    method DuplicateElement(document: string, id: string, target: Option<int>, dx: real, dy: real, generated: string)
      returns (reply: Reply)
      requires Ready(document)
      modifies if document in sessions then {sessions[document]} else {}
      ensures Ready(document)
      ensures reply.NoDocument? <==> document !in sessions
      ensures reply.Edited? ==> Applied(old(sessions[document].pages), Duplicate(id, target, dx, dy, generated),
                                        sessions[document].pages, reply.outcome)
    {
      if document !in sessions {
        return NoDocument;
      }
      var found := GetElement(sessions[document], id);
      if found.None? {
        return Edited(ElementNotFound);
      }
      var (element, source) := found.value;
      var copy := Copied(element, generated, dx, dy);
      var draft := Draft(Some(copy.id), Some(copy.kind), copy.bounds, copy.content, true);
      reply := CreateElement(document, if target.Some? then target.value else source, draft, generated);
    }

    method ApplyOperation(document: string, e: Edit) returns (reply: Reply)
      requires Ready(document) && (e.Create? || e.Update? || e.Delete? || e.Unknown?)
      modifies if document in sessions then {sessions[document]} else {}
      ensures Ready(document)
      ensures reply.NoDocument? <==> document !in sessions && !e.Unknown?
      ensures document in sessions ==>
                Applied(old(sessions[document].pages), e, sessions[document].pages, reply.outcome)
      ensures e.Unknown? ==> reply == Edited(UnknownAction)
    {
      hide After, Result;
      if e.Create? {
        reply := CreateElement(document, e.number, e.draft, e.generated);
      } else if e.Update? {
        reply := UpdateElement(document, e.id, e.change);
      } else if e.Delete? {
        reply := DeleteElement(document, e.id);
      } else {
        if document in sessions {
          UnknownChangesNothing(sessions[document].pages, e);
        }
        reply := Edited(UnknownAction);
      }
    }

    /** One entry for each operation; a failed one leaves the pages and the batch goes on. */
    method BatchOperations(document: string, edits: seq<Edit>) returns (results: seq<Entry>)
      requires Ready(document)
      requires forall i | 0 <= i < |edits| ::
                 edits[i].Create? || edits[i].Update? || edits[i].Delete? || edits[i].Unknown?
      modifies if document in sessions then {sessions[document]} else {}
      ensures Ready(document) && |results| == |edits|
      ensures document in sessions ==> sessions[document].pages == AfterAll(old(sessions[document].pages), edits)
      ensures forall i | 0 <= i < |edits| ::
                results[i] == Entry(edits[i],
                                    if document in sessions
                                    then Edited(Results(old(sessions[document].pages), edits)[i])
                                              else if edits[i].Unknown? then Edited(UnknownAction)
                                              else NoDocument)
    {
      hide After, Result;
      results := [];
      ghost var pages := if document in sessions then sessions[document].pages else [];
      for i := 0 to |edits|
        invariant Ready(document) && |results| == i
        invariant document in sessions ==> sessions[document].pages == AfterAll(pages, edits[..i])
        invariant forall k | 0 <= k < i ::
                    results[k] == Entry(edits[k], if document in sessions then Edited(Results(pages, edits[..i])[k])
                                                  else if edits[k].Unknown? then Edited(UnknownAction)
                                                  else NoDocument)
      {
        OneMore(pages, edits, i);
        var reply := ApplyOperation(document, edits[i]);
        results := results + [Entry(edits[i], reply)];
      }
      assert edits[..|edits|] == edits;
    }
  }

  lemma OneMore(pages: seq<Page>, edits: seq<Edit>, i: nat)
    requires i < |edits|
    ensures AfterAll(pages, edits[..i + 1]) == After(AfterAll(pages, edits[..i]), edits[i])
    ensures Results(pages, edits[..i + 1])
            == Results(pages, edits[..i]) + [Result(AfterAll(pages, edits[..i]), edits[i])]
  {
    hide After, Result;
    assert edits[..i + 1][..i] == edits[..i] && edits[..i + 1][i] == edits[i];
  }

  ghost predicate Applied(pages: seq<Page>, e: Edit, after: seq<Page>, outcome: Outcome) {
    after == After(pages, e) && outcome == Result(pages, e)
  }

  lemma UnknownChangesNothing(pages: seq<Page>, e: Edit)
    requires e.Unknown?
    ensures Applied(pages, e, pages, UnknownAction)
  {
  }

  function Shifted(place: Place, n: nat): Place {
    if place.At? then At(place.page + n, place.index) else Nowhere
  }
}
