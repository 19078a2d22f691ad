/** Page edits keep two lists in step: the PDF the engine holds and the scene graph
    the editor shows. */
module PageEditing {
  import opened Sequences
  import opened SceneGraph

  /** A PDF, as far as page edits go: its pages' sizes and rotations. */
  datatype PdfPage = PdfPage(width: real, height: real, rotation: int)

  type Pdf = seq<PdfPage>

  /** One open document: the engine's copy of the bytes, the session's two copies, and
      the scene graph with its recorded page count. */
  datatype Editing = Editing(engine: Pdf, bytes: Pdf, proxy: Pdf, pages: seq<Page>, pageCount: nat)

  predicate RightAngle(rotation: int) { rotation == 0 || rotation == 90 || rotation == 180 || rotation == 270 }

  predicate ValidAngle(angle: int) { RightAngle(angle) || angle == -90 || angle == -180 || angle == -270 }

  /** The id a new page gets is a parameter. */
  datatype Edit =
    | AddPage(position: int, width: real, height: real, id: string)
    | DeletePage(number: int)
    | RotatePage(number: int, angle: int)
    | ReorderPages(order: seq<int>)

  datatype Outcome = Done | LastPage | OutOfRange | InvalidAngle | InvalidOrder | InvalidSize

  /** sorted(order) is 1, 2, ..., n. */
  predicate IsPageOrder(order: seq<int>, n: nat) { multiset(order) == multiset(PageNumbers(n)) }

  function Inserted<T>(s: seq<T>, i: nat, x: T): seq<T>
    requires i <= |s|
  {
    s[..i] + [x] + s[i..]
  }

  function Without<T>(s: seq<T>, i: nat): seq<T>
    requires i < |s|
  {
    s[..i] + s[i + 1..]
  }

  function Picked<T>(s: seq<T>, order: seq<int>): seq<T>
    requires forall k | 0 <= k < |order| :: 1 <= order[k] <= |s|
  {
    seq(|order|, k requires 0 <= k < |order| => s[order[k] - 1])
  }

  function Selected<T>(s: seq<T>, indices: seq<int>): seq<T>
    requires forall k | 0 <= k < |indices| :: 0 <= indices[k] < |s|
  {
    seq(|indices|, k requires 0 <= k < |indices| => s[indices[k]])
  }

  /** As sets, the indices are 0..n-1: repeated ones go unnoticed. */
  predicate Covers(indices: seq<int>, n: nat) {
    (forall k | 0 <= k < |indices| :: 0 <= indices[k] < n) && forall p | 0 <= p < n :: p in indices
  }

  function Turned(rotation: int, angle: int): int { (rotation + angle % 360) % 360 }

  /** The scene graph counts its pages right and holds right angles only, and a page is
      added at a place both lists have. */
  ghost predicate Ready(s: Editing, e: Edit) {
    && s.pageCount == |s.pages| && (forall i | 0 <= i < |s.pages| :: RightAngle(s.pages[i].rotation))
    && (e.AddPage? ==> 1 <= e.position <= |s.pages| + 1 && e.position <= |s.engine| + 1)
  }

  // ---- The edits, as functions of the state they find ---------------------------------

  function Synced(s: Editing, pdf: Pdf): Editing { s.(engine := pdf, bytes := pdf, proxy := pdf) }

  ghost function Result(s: Editing, e: Edit): Outcome {
    match e
    case AddPage(_, w, h, _) => if w > 0.0 && h > 0.0 then Done else InvalidSize
    case DeletePage(n) =>
      if s.pageCount <= 1 then LastPage
      else if 1 <= n <= |s.engine| && n <= |s.pages| then Done else OutOfRange
    case RotatePage(n, a) =>
      if !ValidAngle(a) then InvalidAngle
      else if !(1 <= n <= |s.engine| && n <= |s.pages|) then OutOfRange
      else Done
    case ReorderPages(order) =>
      if IsPageOrder(order, s.pageCount) && |s.engine| == s.pageCount then Done else InvalidOrder
  }

  ghost function After(s: Editing, e: Edit): Editing
    requires Ready(s, e)
  {
    match e
    case AddPage(p, w, h, id) =>
      var t := Synced(s, Inserted(s.engine, p - 1, PdfPage(w, h, 0)));
      if w > 0.0 && h > 0.0 then
        t.(pages := Renumbered(Inserted(s.pages, p - 1, Page(id, p, w, h, 0, []))), pageCount := |s.pages| + 1)
      else t
    case DeletePage(n) =>
      if s.pageCount <= 1 || !(1 <= n <= |s.engine|) then s
      else if n > |s.pages| then Synced(s, Without(s.engine, n - 1))
      else Synced(s, Without(s.engine, n - 1)).(pages := Renumbered(Without(s.pages, n - 1)),
                                                pageCount := |s.pages| - 1)
    case RotatePage(n, a) =>
      if !Result(s, e).Done? then s
      else
        var r := Turned(s.pages[n - 1].rotation, a);
        var t := Synced(s, s.engine[n - 1 := s.engine[n - 1].(rotation := r)]);
        t.(pages := s.pages[n - 1 := s.pages[n - 1].(rotation := r)])
    case ReorderPages(order) =>
      if !Result(s, e).Done? then s
      else
        OrderInRange(order, s.pageCount);
        Synced(s, Picked(s.engine, order)).(pages := Renumbered(Picked(s.pages, order)))
  }

  // ---- Page orders ---------------------------------------------------------------------

  lemma OrderInRange(order: seq<int>, n: nat)
    requires IsPageOrder(order, n)
    ensures |order| == n
    ensures forall k | 0 <= k < |order| :: 1 <= order[k] <= n
    ensures forall p | 1 <= p <= n :: p in order
  {
    assert |order| == |multiset(order)| && n == |multiset(PageNumbers(n))|;
    forall k | 0 <= k < |order|
      ensures 1 <= order[k] <= n
    {
      assert order[k] in multiset(order);
      assert order[k] in PageNumbers(n);
    }
    forall p | 1 <= p <= n
      ensures p in order
    {
      assert PageNumbers(n)[p - 1] == p;
      assert p in multiset(PageNumbers(n));
    }
  }

  lemma {:induction false} DistinctCountsOnce(s: seq<int>, v: int)
    requires Distinct(s)
    ensures multiset(s)[v] <= 1
  {
    if s != [] {
      assert s == [s[0]] + s[1..];
      DistinctCountsOnce(s[1..], v);
      assert v == s[0] ==> v !in s[1..];
    }
  }

  lemma CountsTwice(s: seq<int>, i: nat, j: nat)
    requires i < j < |s| && s[i] == s[j]
    ensures multiset(s)[s[i]] >= 2
  {
    assert s == s[..j] + [s[j]] + s[j + 1..];
    assert s[..j][i] in s[..j];
  }

  /** sorted(order) is 1..n exactly when order lists n different numbers of that range. */
  lemma OrderIsDistinct(order: seq<int>, n: nat)
    ensures IsPageOrder(order, n) <==> |order| == n && Distinct(order) && forall k | 0 <= k < |order| ::
              1 <= order[k] <= n
  {
    var a, b := multiset(order), multiset(PageNumbers(n));
    if IsPageOrder(order, n) {
      OrderInRange(order, n);
      forall i, j | 0 <= i < j < n
        ensures order[i] != order[j]
      {
        DistinctCountsOnce(PageNumbers(n), order[j]);
        if order[i] == order[j] {
          CountsTwice(order, i, j);
        }
      }
    }
    if |order| == n && Distinct(order) && forall k | 0 <= k < |order| :: 1 <= order[k] <= n {
      forall v
        ensures a[v] <= b[v]
      {
        DistinctCountsOnce(order, v);
        if v in order {
          assert PageNumbers(n)[v - 1] == v;
        }
      }
      assert a <= b;
      assert b == a + (b - a);
      assert |b - a| == 0;
    }
  }

  function Position(order: seq<int>, p: int): (k: nat)
    requires p in order
    ensures k < |order| && order[k] == p
  {
    if order[0] == p then 0 else 1 + Position(order[1..], p)
  }

  /** The last page taken out of a sequence and of an order of it. */
  lemma PickedWithoutLast<T>(s: seq<T>, order: seq<int>, k: nat)
    requires k < |order| == |s| && Distinct(order) && order[k] == |s| && forall j | 0 <= j < |order| ::
               1 <= order[j] <= |s|
    ensures var rest, init := Without(order, k), s[..|s| - 1];
            && |rest| == |init| && Distinct(rest) && (forall j | 0 <= j < |rest| :: 1 <= rest[j] <= |init|)
            && Picked(s, order) == Picked(init, rest)[..k] + [s[|s| - 1]] + Picked(init, rest)[k..]
  {
    var rest, init := Without(order, k), s[..|s| - 1];
    forall j | 0 <= j < |rest|
      ensures rest[j] == order[if j < k then j else j + 1] && rest[j] <= |s| - 1
    {
      assert order[if j < k then j else j + 1] != order[k];
    }
    var all, some := Picked(s, order), Picked(init, rest);
    assert forall j | 0 <= j < k :: all[j] == some[j];
    assert forall j | k < j < |all| :: all[j] == some[j - 1];
  }

  lemma Reassemble<T>(m: seq<T>, k: nat, x: T, init: seq<T>)
    requires k <= |m| && multiset(m) == multiset(init)
    ensures multiset(m[..k] + [x] + m[k..]) == multiset(init + [x])
  {
    assert m == m[..k] + m[k..];
  }

  /** Reordering neither loses nor doubles anything. */
  lemma {:induction false} PickedIsAll<T>(s: seq<T>, order: seq<int>)
    requires |order| == |s| && Distinct(order) && forall k | 0 <= k < |order| :: 1 <= order[k] <= |s|
    ensures multiset(Picked(s, order)) == multiset(s)
    decreases |s|, 1
  {
    if s != [] {
      hide Picked, Distinct, IsPageOrder;
      OrderIsDistinct(order, |s|);
      OrderInRange(order, |s|);
      TakeLast(s, order, Position(order, |s|));
    }
  }

  lemma {:induction false} TakeLast<T>(s: seq<T>, order: seq<int>, k: nat)
    requires k < |order| == |s| && Distinct(order) && order[k] == |s| && forall j | 0 <= j < |order| ::
               1 <= order[j] <= |s|
    ensures multiset(Picked(s, order)) == multiset(s)
    decreases |s|, 0
  {
    hide Picked, Distinct;
    var rest, init := Without(order, k), s[..|s| - 1];
    PickedWithoutLast(s, order, k);
    PickedIsAll(init, rest);
    PickedLength(init, rest);
    Reassemble(Picked(init, rest), k, s[|s| - 1], init);
    assert s == init + [s[|s| - 1]];
  }

  lemma PickedLength<T>(s: seq<T>, order: seq<int>)
    requires forall k | 0 <= k < |order| :: 1 <= order[k] <= |s|
    ensures |Picked(s, order)| == |order|
  {
  }

  function Inverse(order: seq<int>): seq<int>
    requires IsPageOrder(order, |order|)
  {
    OrderInRange(order, |order|);
    seq(|order|, i requires 0 <= i < |order| => Position(order, i + 1) + 1)
  }

  lemma InverseUndoes<T>(s: seq<T>, order: seq<int>)
    requires IsPageOrder(order, |s|)
    ensures |order| == |s| && (forall k | 0 <= k < |order| :: 1 <= order[k] <= |s|)
    ensures var inverse := Inverse(order);
            IsPageOrder(inverse, |s|) && (forall k | 0 <= k < |inverse| :: 1 <= inverse[k] <= |s|)
            && Picked(Picked(s, order), inverse) == s
  {
    OrderInRange(order, |s|);
    var inverse := Inverse(order);
    forall i, j | 0 <= i < j < |s|
      ensures inverse[i] != inverse[j]
    {
      assert order[inverse[i] - 1] == i + 1 && order[inverse[j] - 1] == j + 1;
    }
    OrderIsDistinct(inverse, |s|);
  }

  // ---- Lockstep --------------------------------------------------------------------------

  predicate Agrees(page: Page, pdf: PdfPage) {
    page.width == pdf.width && page.height == pdf.height && page.rotation == pdf.rotation
  }

  predicate WellFormed(pdf: Pdf) {
    forall i | 0 <= i < |pdf| :: pdf[i].width > 0.0 && pdf[i].height > 0.0 && RightAngle(pdf[i].rotation)
  }

  predicate InStep(pages: seq<Page>, pdf: Pdf) {
    |pages| == |pdf| && forall i | 0 <= i < |pages| :: Agrees(pages[i], pdf[i])
  }

  /** All copies of the bytes agree, and the scene graph shows them page by page. */
  predicate Lockstep(s: Editing) {
    && s.bytes == s.engine && s.proxy == s.engine
    && s.pageCount == |s.pages| >= 1
    && Numbered(s.pages) && InStep(s.pages, s.engine) && WellFormed(s.engine)
  }

  /** An edit breaks lockstep exactly when it adds a page of no size, and an edit that
      is refused for any other reason changes nothing. */
  lemma EditKeepsLockstep(s: Editing, e: Edit)
    requires Lockstep(s) && Ready(s, e)
    ensures Lockstep(After(s, e)) <==> !Result(s, e).InvalidSize?
    ensures Result(s, e).InvalidSize? <==> e.AddPage? && (e.width <= 0.0 || e.height <= 0.0)
    ensures !Result(s, e).Done? && !Result(s, e).InvalidSize? ==> After(s, e) == s
  {
    match e
    case AddPage(_, _, _, _) => AddKeepsLockstep(s, e);
    case DeletePage(_) => DeleteKeepsLockstep(s, e);
    case RotatePage(_, _) => RotateKeepsLockstep(s, e);
    case ReorderPages(_) => ReorderKeepsLockstep(s, e);
  }

  lemma AddKeepsLockstep(s: Editing, e: Edit)
    requires Lockstep(s) && Ready(s, e) && e.AddPage?
    ensures Lockstep(After(s, e)) <==> e.width > 0.0 && e.height > 0.0
  {
    var t := After(s, e);
    if e.width > 0.0 && e.height > 0.0 {
      assert InStep(t.pages, t.engine);
    } else {
      assert |t.engine| == |t.pages| + 1;
    }
  }

  lemma DeleteKeepsLockstep(s: Editing, e: Edit)
    requires Lockstep(s) && Ready(s, e) && e.DeletePage?
    ensures Lockstep(After(s, e)) && (!Result(s, e).Done? ==> After(s, e) == s)
  {
  }

  lemma RotateKeepsLockstep(s: Editing, e: Edit)
    requires Lockstep(s) && Ready(s, e) && e.RotatePage?
    ensures Lockstep(After(s, e)) && (!Result(s, e).Done? ==> After(s, e) == s)
  {
    hide Turned, ValidAngle;
    if Result(s, e).Done? {
      assert Agrees(s.pages[e.number - 1], s.engine[e.number - 1]);
      TurnsCancel(s.pages[e.number - 1].rotation, e.angle);
    }
  }

  lemma ReorderKeepsLockstep(s: Editing, e: Edit)
    requires Lockstep(s) && Ready(s, e) && e.ReorderPages?
    ensures Lockstep(After(s, e)) && (!Result(s, e).Done? ==> After(s, e) == s)
  {
    if Result(s, e).Done? {
      OrderInRange(e.order, s.pageCount);
    }
  }

  ghost predicate Edits(states: seq<Editing>, edits: seq<Edit>) {
    && |states| == |edits| + 1
    && forall i | 0 <= i < |edits| :: Ready(states[i], edits[i]) && states[i + 1] == After(states[i], edits[i])
  }

  /** Every run of edits whose added pages have a size keeps both lists in step. */
  lemma {:induction false} EditsKeepLockstep(states: seq<Editing>, edits: seq<Edit>, i: nat)
    requires Edits(states, edits) && i <= |edits| && Lockstep(states[0])
    requires forall k | 0 <= k < |edits| :: edits[k].AddPage? ==> edits[k].width > 0.0 && edits[k].height > 0.0
    ensures Lockstep(states[i])
  {
    hide Lockstep, After, Ready;
    if i > 0 {
      EditsKeepLockstep(states, edits, i - 1);
      EditKeepsLockstep(states[i - 1], edits[i - 1]);
    }
  }

  // ---- Page by page ------------------------------------------------------------------------

  /** On pages in step, when each edit is refused. */
  lemma RefusedMeans(s: Editing, e: Edit)
    requires Lockstep(s) && Ready(s, e)
    ensures var n, r := |s.pages|, Result(s, e);
            match e
            case AddPage(_, w, h, _) => (r.Done? <==> w > 0.0 && h > 0.0) && (r.InvalidSize? <==> w <= 0.0 || h <= 0.0)
            case DeletePage(k) =>
              (r.LastPage? <==> n == 1) && (r.OutOfRange? <==> n > 1 && (k < 1 || k > n))
              && (r.Done? <==> n > 1 && 1 <= k <= n)
            case RotatePage(k, a) =>
              && (r.InvalidAngle? <==> a != 0 && a != 90 && a != 180 && a != 270 && a != -90 && a != -180 && a != -270)
              && (r.OutOfRange? <==> !r.InvalidAngle? && (k < 1 || k > n))
              && (r.Done? <==> !r.InvalidAngle? && 1 <= k <= n)
            case ReorderPages(order) =>
              && (r.Done? || r.InvalidOrder?)
              && (r.Done? <==> |order| == n && Distinct(order)
                               && forall k | 0 <= k < |order| :: 1 <= order[k] <= n)
  {
    if e.ReorderPages? {
      OrderIsDistinct(e.order, |s.pages|);
    }
  }

  /** The new page stands at its position, blank, and those behind it move on by one. */
  lemma AddPlaces(s: Editing, e: Edit)
    requires Ready(s, e) && e.AddPage? && Result(s, e).Done?
    ensures var t, p := After(s, e), e.position - 1;
            && |t.pages| == |s.pages| + 1 == t.pageCount && |t.engine| == |s.engine| + 1
            && t.pages[p] == Page(e.id, e.position, e.width, e.height, 0, [])
            && (forall k | 0 <= k < p :: t.pages[k] == s.pages[k].(number := k + 1))
            && (forall k | p < k < |t.pages| :: t.pages[k] == s.pages[k - 1].(number := k + 1))
            && t.engine[p] == PdfPage(e.width, e.height, 0)
            && (forall k | 0 <= k < p :: t.engine[k] == s.engine[k])
            && forall k | p < k < |t.engine| :: t.engine[k] == s.engine[k - 1]
  {
  }

  /** The page is gone, and those behind it move up by one. */
  lemma DeletePlaces(s: Editing, e: Edit)
    requires Ready(s, e) && e.DeletePage? && Result(s, e).Done?
    ensures var t, p := After(s, e), e.number - 1;
            && |t.pages| == |s.pages| - 1 == t.pageCount && |t.engine| == |s.engine| - 1
            && (forall k | 0 <= k < p :: t.pages[k] == s.pages[k].(number := k + 1))
            && (forall k | p <= k < |t.pages| :: t.pages[k] == s.pages[k + 1].(number := k + 1))
            && (forall k | 0 <= k < p :: t.engine[k] == s.engine[k])
            && forall k | p <= k < |t.engine| :: t.engine[k] == s.engine[k + 1]
  {
  }

  /** A whole number of full turns separates the new rotation from the old one plus the angle. */
  lemma RotatePlaces(s: Editing, e: Edit)
    requires Ready(s, e) && e.RotatePage? && Result(s, e).Done?
    ensures var t, p := After(s, e), e.number - 1;
            var was, now := s.pages[p].rotation, t.pages[p].rotation;
            && |t.pages| == |s.pages| && |t.engine| == |s.engine| && t.pageCount == s.pageCount
            && (now == was + e.angle || now == was + e.angle + 360 || now == was + e.angle - 360)
            && (now == 0 || now == 90 || now == 180 || now == 270)
            && t.pages[p] == s.pages[p].(rotation := now) && t.engine[p] == s.engine[p].(rotation := now)
            && (forall k | 0 <= k < |s.pages| && k != p :: t.pages[k] == s.pages[k])
            && forall k | 0 <= k < |s.engine| && k != p :: t.engine[k] == s.engine[k]
  {
    hide Turned;
    TurnsCancel(s.pages[e.number - 1].rotation, e.angle);
    TurnedMeans(s.pages[e.number - 1].rotation, e.angle);
  }

  /** The page the order names at a place stands there now. */
  lemma ReorderPlaces(s: Editing, e: Edit)
    requires Ready(s, e) && e.ReorderPages? && Result(s, e).Done?
    ensures var t := After(s, e);
            && |t.pages| == |s.pages| == |e.order| == |t.engine| == |s.engine| && t.pageCount == s.pageCount
            && (forall k | 0 <= k < |e.order| :: 1 <= e.order[k] <= |s.pages|)
            && (forall k | 0 <= k < |t.pages| :: t.pages[k] == s.pages[e.order[k] - 1].(number := k + 1))
            && forall k | 0 <= k < |t.engine| :: t.engine[k] == s.engine[e.order[k] - 1]
  {
    OrderInRange(e.order, s.pageCount);
  }

  // ---- What one edit undoes -----------------------------------------------------------------

  lemma DeleteUndoesAdd(s: Editing, e: Edit)
    requires Lockstep(s) && Ready(s, e) && e.AddPage? && Result(s, e).Done?
    ensures var t := After(s, e);
            Ready(t, DeletePage(e.position)) && Result(t, DeletePage(e.position)).Done?
              && After(t, DeletePage(e.position)) == s
  {
    hide Lockstep;
    var i := e.position - 1;
    var pages := Inserted(s.pages, i, Page(e.id, e.position, e.width, e.height, 0, []));
    WithoutInserted(s.engine, i, PdfPage(e.width, e.height, 0));
    RenumberedWithout(s.pages, pages, i);
    LockstepFacts(s);
  }

  lemma LockstepFacts(s: Editing)
    requires Lockstep(s)
    ensures s.bytes == s.engine && s.proxy == s.engine && s.pageCount == |s.pages| == |s.engine| >= 1
            && Numbered(s.pages)
  {
  }

  lemma WithoutInserted<T>(s: seq<T>, i: nat, x: T)
    requires i <= |s|
    ensures Without(Inserted(s, i, x), i) == s
  {
  }

  lemma RenumberedWithout(s: seq<Page>, t: seq<Page>, i: nat)
    requires i <= |s| && |t| == |s| + 1 && t[..i] == s[..i] && t[i + 1..] == s[i..]
    ensures Numbered(s) ==> Renumbered(Without(Renumbered(t), i)) == s
  {
    assert Without(t, i) == s;
  }

  /** Turning adds the angles and drops a full turn when there is one. */
  lemma TurnedMeans(rotation: int, angle: int)
    requires 0 <= rotation < 360 && -360 < angle < 360
    ensures var sum := rotation + if angle < 0 then angle + 360 else angle;
            Turned(rotation, angle) == if sum < 360 then sum else sum - 360
  {
  }

  lemma TurnsCancel(rotation: int, angle: int)
    requires RightAngle(rotation) && ValidAngle(angle)
    ensures RightAngle(Turned(rotation, angle)) && Turned(Turned(rotation, angle), -angle) == rotation
            && ValidAngle(-angle)
  {
    hide Turned;
    TurnedMeans(rotation, angle);
    TurnedMeans(Turned(rotation, angle), -angle);
  }

  lemma RotateUndoesRotate(s: Editing, n: int, angle: int)
    requires Lockstep(s) && Result(s, RotatePage(n, angle)).Done?
    ensures Result(After(s, RotatePage(n, angle)), RotatePage(n, -angle)).Done?
    ensures After(After(s, RotatePage(n, angle)), RotatePage(n, -angle)) == s
  {
    hide Turned, ValidAngle;
    assert Agrees(s.pages[n - 1], s.engine[n - 1]);
    TurnsCancel(s.pages[n - 1].rotation, angle);
    var t := After(s, RotatePage(n, angle));
    assert After(t, RotatePage(n, -angle)).pages == s.pages;
    assert After(t, RotatePage(n, -angle)).engine == s.engine;
  }

  lemma ReorderUndoesReorder(s: Editing, order: seq<int>)
    requires Lockstep(s) && Result(s, ReorderPages(order)).Done?
    ensures |order| == s.pageCount && IsPageOrder(order, |order|)
    ensures Ready(After(s, ReorderPages(order)), ReorderPages(Inverse(order)))
    ensures var t, back := After(s, ReorderPages(order)), ReorderPages(Inverse(order));
            Result(t, back).Done? && After(t, back) == s
  {
    InverseUndoes(s.pages, order);
    InverseUndoes(s.engine, order);
    EditKeepsLockstep(s, ReorderPages(order));
    var t := After(s, ReorderPages(order));
    var back := After(t, ReorderPages(Inverse(order)));
    assert back.pages == s.pages by {
      forall i | 0 <= i < |s.pages|
        ensures back.pages[i] == s.pages[i]
      {
        assert s.pages[i] == Picked(Picked(s.pages, order), Inverse(order))[i];
      }
    }
  }

  /** A page without its number: what a reorder moves. */
  function Unnumbered(pages: seq<Page>): seq<Page> {
    seq(|pages|, i requires 0 <= i < |pages| => pages[i].(number := 0))
  }

  /** A reorder keeps every page with its elements, once. */
  lemma ReorderKeepsPages(s: Editing, order: seq<int>)
    requires Lockstep(s) && Result(s, ReorderPages(order)).Done?
    ensures multiset(Unnumbered(After(s, ReorderPages(order)).pages)) == multiset(Unnumbered(s.pages))
  {
    OrderInRange(order, s.pageCount);
    OrderIsDistinct(order, s.pageCount);
    PickedIsAll(Unnumbered(s.pages), order);
    assert Unnumbered(After(s, ReorderPages(order)).pages) == Picked(Unnumbered(s.pages), order);
  }
}
