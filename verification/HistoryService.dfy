/** The manager that keeps each document's snapshots and position. */
module HistoryService {
  import opened SceneGraph
  import opened History
  import DocumentService

  class HistoryManager {
    const maxSnapshots: nat
    var snapshots: map<string, seq<Snapshot>>
    var positions: map<string, nat>

    constructor (maxSnapshots: nat)
      requires maxSnapshots >= 1
      ensures AllValid() && this.maxSnapshots == maxSnapshots && snapshots == map[]
    {
      this.maxSnapshots, this.snapshots, this.positions := maxSnapshots, map[], map[];
    }

    ghost predicate AllValid()
      reads this
    {
      maxSnapshots >= 1 && snapshots.Keys == positions.Keys
      && forall d | d in snapshots :: Valid(Timeline(snapshots[d], positions[d]), maxSnapshots)
    }

    ghost function Of(document: string): Timeline
      requires document in snapshots && document in positions
      reads this
    {
      Timeline(snapshots[document], positions[document])
    }

    /** The documents other than this one keep their history. */
    twostate predicate OthersKept(document: string)
      reads this
    {
      forall d | d != document ::
        && (d in snapshots <==> d in old(snapshots)) && (d in snapshots ==> snapshots[d] == old(snapshots)[d])
        && (d in positions <==> d in old(positions)) && (d in positions ==> positions[d] == old(positions)[d])
    }

    method CreateSnapshot(pages: seq<Page>, action: string, elements: seq<string>, affected: seq<int>)
      returns (s: Snapshot)
      requires Positive(affected)
      ensures s == Taken(pages, action, elements, affected)
      ensures s.action == action && s.elements == elements && s.affected == affected
      ensures forall p :: p in s.pages <==> 1 <= p <= |pages| && (p in affected || affected == [])
      ensures forall p | p in s.pages :: s.pages[p] == pages[p - 1]
    {
      var numbers := ToStore(pages, affected);
      var stored: map<int, Page> := map[];
      for i := 0 to |numbers|
        invariant stored == Stored(pages, numbers[..i])
      {
        assert numbers[..i + 1] == numbers[..i] + [numbers[i]];
        if numbers[i] <= |pages| {
          stored := stored[numbers[i] := pages[numbers[i] - 1]];
        }
      }
      assert numbers[..|numbers|] == numbers;
      forall p | 1 <= p <= |pages| && affected == []
        ensures p in numbers
      {
        assert numbers[p - 1] == p;
      }
      s := Snapshot(action, stored, elements, affected);
    }

    method RestoreSnapshot(session: DocumentService.DocumentSession, s: Snapshot)
      modifies session`pages
      ensures session.pages == Restored(old(session.pages), s)
    {
      ghost var pages := session.pages;
      for i := 0 to |session.pages|
        invariant |session.pages| == |pages|
        invariant forall k | 0 <= k < |pages| ::
                    session.pages[k] == if k < i && k + 1 in s.pages then s.pages[k + 1] else pages[k]
      {
        if i + 1 in s.pages {
          session.pages := session.pages[i := s.pages[i + 1]];
        }
      }
    }

    method InitDocument(document: string, pages: seq<Page>)
      requires AllValid()
      modifies this
      ensures AllValid() && document in snapshots && OthersKept(document)
      ensures Of(document) == Timeline([Taken(pages, "Document opened", [], PageNumbers(|pages|))], 0)
    {
      var s := CreateSnapshot(pages, "Document opened", [], PageNumbers(|pages|));
      Keep(document, Timeline([s], 0));
    }

    method PushState(document: string, pages: seq<Page>, action: string, elements: seq<string>, affected: seq<int>)
      requires AllValid() && Positive(affected)
      modifies this
      ensures AllValid() && document in snapshots && OthersKept(document)
      ensures Of(document) == if document in old(snapshots) then
                                Pushed(old(Of(document)), Taken(pages, action, elements, affected), maxSnapshots)
                              else Timeline([Taken(pages, "Document opened", [], PageNumbers(|pages|))], 0)
    {
      if document !in snapshots {
        InitDocument(document, pages);
        return;
      }
      var s := CreateSnapshot(pages, action, elements, affected);
      var grown := Grow(Timeline(snapshots[document], positions[document]), s);
      Keep(document, grown);
    }

    /** The redo branch is cut, the snapshot appended, and the oldest dropped when there
        are too many. */
    method Grow(h: Timeline, s: Snapshot) returns (grown: Timeline)
      requires Valid(h, maxSnapshots)
      ensures grown == Pushed(h, s, maxSnapshots) && Valid(grown, maxSnapshots)
    {
      var list := h.snapshots[..h.position + 1] + [s];
      var position := |list| - 1;
      if |list| > maxSnapshots {
        list := list[1..];
        position := position - 1;
      }
      grown := Timeline(list, position);
    }

    method Keep(document: string, h: Timeline)
      requires AllValid() && Valid(h, maxSnapshots)
      modifies this
      ensures AllValid() && document in snapshots && OthersKept(document) && Of(document) == h
    {
      snapshots := snapshots[document := h.snapshots];
      positions := positions[document := h.position];
    }

    /** `None` where there is no history; otherwise the actions undone, latest first. */
    method Undo(document: string, session: DocumentService.DocumentSession, steps: int)
      returns (found: bool, actions: seq<string>)
      requires AllValid()
      modifies this`positions, session`pages
      ensures AllValid() && OthersKept(document) && snapshots == old(snapshots)
      ensures found <==> document in snapshots
      ensures found ==> var h := old(Of(document));
                        && Of(document) == h.(position := Back(h, steps))
                        && session.pages == Gone(h, Back(h, steps), old(session.pages))
                        && |actions| == h.position - Back(h, steps)
                        && forall i | 0 <= i < |actions| :: actions[i] == h.snapshots[h.position - i].action
      ensures found && (steps <= 0 || old(Of(document)).position == 0) ==>
                actions == [] && session.pages == old(session.pages) && positions == old(positions)
      ensures !found ==> session.pages == old(session.pages) && positions == old(positions)
    {
      actions := [];
      found := document in snapshots;
      if !found {
        return;
      }
      var list, position := snapshots[document], positions[document];
      var i := 0;
      while i < steps && position > 0
        invariant 0 <= position <= positions[document] < |list| && |actions| == positions[document] - position == i
        invariant i == 0 || i <= steps
        invariant forall k | 0 <= k < |actions| :: actions[k] == list[positions[document] - k].action
        decreases position
      {
        actions := actions + [list[position].action];
        position, i := position - 1, i + 1;
      }
      if position != positions[document] {
        RestoreSnapshot(session, list[position]);
        positions := positions[document := position];
      }
    }

    method Redo(document: string, session: DocumentService.DocumentSession, steps: int)
      returns (found: bool, actions: seq<string>)
      requires AllValid()
      modifies this`positions, session`pages
      ensures AllValid() && OthersKept(document) && snapshots == old(snapshots)
      ensures found <==> document in snapshots
      ensures found ==> var h := old(Of(document));
                        && Of(document) == h.(position := Forth(h, steps))
                        && session.pages == Gone(h, Forth(h, steps), old(session.pages))
                        && |actions| == Forth(h, steps) - h.position
                        && forall i | 0 <= i < |actions| :: actions[i] == h.snapshots[h.position + 1 + i].action
      ensures found && (steps <= 0 || old(Of(document)).position == |old(Of(document)).snapshots| - 1) ==>
                actions == [] && session.pages == old(session.pages) && positions == old(positions)
      ensures !found ==> session.pages == old(session.pages) && positions == old(positions)
    {
      actions := [];
      found := document in snapshots;
      if !found {
        return;
      }
      var list, position := snapshots[document], positions[document];
      var i := 0;
      while i < steps && position < |list| - 1
        invariant positions[document] <= position < |list| && |actions| == position - positions[document] == i
        invariant i == 0 || i <= steps
        invariant forall k | 0 <= k < |actions| :: actions[k] == list[positions[document] + 1 + k].action
        decreases |list| - position
      {
        position, i := position + 1, i + 1;
        actions := actions + [list[position].action];
      }
      if position != positions[document] {
        RestoreSnapshot(session, list[position]);
        positions := positions[document := position];
      }
    }

    method GotoIndex(document: string, session: DocumentService.DocumentSession, index: int) returns (ok: bool)
      requires AllValid()
      modifies this`positions, session`pages
      ensures AllValid() && OthersKept(document) && snapshots == old(snapshots)
      ensures ok <==> document in snapshots && 0 <= index < |snapshots[document]|
      ensures ok ==> var h := old(Of(document));
                     Of(document) == h.(position := index)
                       && session.pages == Restored(old(session.pages), h.snapshots[index])
      ensures !ok ==> session.pages == old(session.pages) && positions == old(positions)
    {
      ok := document in snapshots && 0 <= index < |snapshots[document]|;
      if ok {
        RestoreSnapshot(session, snapshots[document][index]);
        positions := positions[document := index];
      }
    }

    method Clear(document: string)
      requires AllValid()
      modifies this
      ensures AllValid() && document !in snapshots && OthersKept(document)
    {
      snapshots := snapshots - {document};
      positions := positions - {document};
    }
  }
}
