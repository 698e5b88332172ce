/** The dashboard board: where a new card is pinned, and how the cards' views are
    fetched in bounded batches. */
module Dashboard {
  import opened Basics

  type Ref = nat

  datatype Placement = Placement(id: string, ref: Ref, x: nat, y: nat, w: nat, h: nat)

  datatype Board = Board(id: string, revision: string, title: string, placements: seq<Placement>)

  /** The part of a frame the commands read. Without a board, `boardId` names the one to create. */
  datatype Frame = Frame(boardId: string, board: Option<Board>, maxPlacements: nat)

  datatype Command =
    | Create(boardId: string, placements: seq<Placement>)
    | Replace(boardId: string, expectedRevision: string, title: string, placements: seq<Placement>)

  datatype Fault = InvalidInput | LimitExceeded | NotFound

  const LAST_ROW := 9998
  const COLUMNS := [0, 6]

  function Placements(frame: Frame): seq<Placement> {
    if frame.board.Some? then frame.board.value.placements else []
  }

  function CommandFor(frame: Frame, placements: seq<Placement>): Command {
    match frame.board
    case Some(b) => Replace(b.id, b.revision, b.title, placements)
    case None => Create(frame.boardId, placements)
  }

  predicate Overlap(p: Placement, q: Placement) {
    q.x < p.x + p.w && p.x < q.x + q.w && q.y < p.y + p.h && p.y < q.y + q.h
  }

  /** Some placement overlaps a card six wide and two high at (x, y). */
  predicate Blocked(ps: seq<Placement>, x: nat, y: nat) {
    exists i :: 0 <= i < |ps| &&
      x < ps[i].x + ps[i].w && ps[i].x < x + 6 && y < ps[i].y + ps[i].h && ps[i].y < y + 2
  }

  predicate Earlier(x: nat, y: nat, x': nat, y': nat) {
    y < y' || (y == y' && x < x')
  }

  predicate Slot(x: nat, y: nat) { y <= LAST_ROW && (x == 0 || x == 6) }

  /** The slot is free, and every slot in an earlier row, or left of it, is not. */
  ghost predicate FirstFree(ps: seq<Placement>, x: nat, y: nat) {
    && Slot(x, y) && !Blocked(ps, x, y)
    && forall x', y' :: Slot(x', y') && Earlier(x', y', x, y) ==> Blocked(ps, x', y')
  }

  ghost predicate Full(ps: seq<Placement>) {
    forall x, y :: Slot(x, y) ==> Blocked(ps, x, y)
  }

  /** `after` is `before` with one new card, in the first free slot. */
  ghost predicate PinnedOn(before: seq<Placement>, after: seq<Placement>, ref: Ref, id: string) {
    && |after| == |before| + 1 && after[..|before|] == before
    && var p := after[|before|];
       p == Placement(id, ref, p.x, p.y, 6, 2) && FirstFree(before, p.x, p.y)
  }

  method FindSlot(ps: seq<Placement>) returns (position: Option<(nat, nat)>)
    ensures position.Some? ==> FirstFree(ps, position.value.0, position.value.1)
    ensures position.None? ==> Full(ps)
  {
    position := None;
    var y := 0;
    while y <= LAST_ROW && position.None?
      invariant 0 <= y <= LAST_ROW + 1
      invariant position.None? ==> forall x': nat, y': nat :: Slot(x', y') && y' < y ==> Blocked(ps, x', y')
      invariant position.Some? ==> FirstFree(ps, position.value.0, position.value.1)
      decreases LAST_ROW + 1 - y
    {
      var k := 0;
      while k < |COLUMNS|
        invariant 0 <= k <= |COLUMNS| && position.None?
        invariant forall j :: 0 <= j < k ==> Blocked(ps, COLUMNS[j], y)
      {
        if !Blocked(ps, COLUMNS[k], y) {
          position := Some((COLUMNS[k], y));
          assert k == 1 ==> Blocked(ps, COLUMNS[0], y);
          break;
        }
        k := k + 1;
      }
      assert position.None? ==> Blocked(ps, COLUMNS[0], y) && Blocked(ps, COLUMNS[1], y);
      y := y + 1;
    }
  }

  /** Faults are decided in this order: the inputs, the card limit, room on the board. */
  method PinCommand(frame: Frame, inputsValid: bool, ref: Ref, placementId: string)
    returns (r: Result<Command, Fault>)
    ensures r == Err(InvalidInput) <==> !inputsValid
    ensures r == Err(LimitExceeded) <==>
      inputsValid && (|Placements(frame)| >= (if frame.maxPlacements < 200 then frame.maxPlacements else 200) ||
                      Full(Placements(frame)))
    ensures r.Ok? ==>
      && r.value == (match frame.board
           case Some(b) => Replace(b.id, b.revision, b.title, r.value.placements)
           case None => Create(frame.boardId, r.value.placements))
      && PinnedOn(Placements(frame), r.value.placements, ref, placementId)
  {
    if !inputsValid {
      return Err(InvalidInput);
    }
    var placements := Placements(frame);
    if |placements| + 1 > (if frame.maxPlacements < 200 then frame.maxPlacements else 200) {
      return Err(LimitExceeded);
    }
    var position := FindSlot(placements);
    if position.None? {
      return Err(LimitExceeded);
    }
    assert !Blocked(placements, position.value.0, position.value.1);
    placements := placements + [Placement(placementId, ref, position.value.0, position.value.1, 6, 2)];
    r := Ok(CommandFor(frame, placements));
  }

  function Without(ps: seq<Placement>, id: string): (kept: seq<Placement>)
    ensures forall p :: p in kept <==> p in ps && p.id != id
  {
    if ps == [] then [] else (if ps[0].id != id then [ps[0]] else []) + Without(ps[1..], id)
  }

  function UnpinCommand(frame: Frame, placementId: string): Result<Command, Fault> {
    if frame.board.None? || !exists p :: p in frame.board.value.placements && p.id == placementId
    then Err(NotFound)
    else Ok(CommandFor(frame, Without(frame.board.value.placements, placementId)))
  }

  // ---- what the board validator accepts ----

  predicate InBounds(p: Placement) {
    p.x <= 11 && p.y <= 9999 && 1 <= p.w <= 12 && 1 <= p.h <= 10000 && p.x + p.w <= 12 && p.y + p.h <= 10000
  }

  ghost predicate Disjoint(ps: seq<Placement>) {
    forall i, j :: 0 <= i < j < |ps| ==> !Overlap(ps[i], ps[j])
  }

  ghost predicate DistinctIds(ps: seq<Placement>) {
    forall i, j :: 0 <= i < j < |ps| ==> ps[i].id != ps[j].id
  }

  ghost predicate Accepted(ps: seq<Placement>, maxPlacements: nat) {
    |ps| <= maxPlacements && (forall p :: p in ps ==> InBounds(p)) && Disjoint(ps) && DistinctIds(ps)
  }

  /** A pin on an accepted board is accepted exactly when its id is new: the slot
      chosen never leaves the board and never overlaps. */
  lemma PinAccepted(before: seq<Placement>, after: seq<Placement>, ref: Ref, id: string, max: nat)
    requires Accepted(before, max) && |before| < max && PinnedOn(before, after, ref, id)
    ensures Accepted(after, max) <==> forall p :: p in before ==> p.id != id
  {
  }

  /** The slot is determined by the board, so two pins of one card give one board. */
  lemma PinnedOnce(before: seq<Placement>, after: seq<Placement>, after': seq<Placement>, ref: Ref, id: string)
    requires PinnedOn(before, after, ref, id) && PinnedOn(before, after', ref, id)
    ensures after == after'
  {
  }

  // ---- a free slot always turns up soon ----

  /** One row more than each placement's height: the rows in which it can block. */
  function Weight(ps: seq<Placement>): nat {
    if ps == [] then 0 else ps[0].h + 1 + Weight(ps[1..])
  }

  function Span(from: int, count: nat): (s: set<int>)
    ensures |s| == count && forall y :: y in s <==> from <= y < from + count
  {
    if count == 0 then {} else Span(from, count - 1) + {from + count - 1}
  }

  function BlockedRows(ps: seq<Placement>): set<int> {
    if ps == [] then {} else Span(ps[0].y - 1, ps[0].h + 1) + BlockedRows(ps[1..])
  }

  lemma {:induction false} FewBlockedRows(ps: seq<Placement>)
    ensures |BlockedRows(ps)| <= Weight(ps)
  {
    if ps == [] {
    } else {
      FewBlockedRows(ps[1..]);
      UnionSize(Span(ps[0].y - 1, ps[0].h + 1), BlockedRows(ps[1..]));
    }
  }

  lemma {:induction false} BlocksItsRows(ps: seq<Placement>, i: nat, y: int)
    requires i < |ps| && ps[i].y - 1 <= y < ps[i].y + ps[i].h
    ensures y in BlockedRows(ps)
  {
    if i == 0 {
    } else {
      BlocksItsRows(ps[1..], i - 1, y);
    }
  }

  /** In a row outside all of them nothing is blocked. */
  lemma OutsideIsFree(ps: seq<Placement>, x: nat, y: nat)
    requires y !in BlockedRows(ps)
    ensures !Blocked(ps, x, y)
  {
  }

  lemma UnionSize(a: set<int>, b: set<int>)
    ensures |a + b| <= |a| + |b|
  {
  }

  lemma SubsetSize(a: set<int>, b: set<int>)
    requires a <= b
    ensures |a| <= |b|
  {
    assert b == a + (b - a);
  }

  /** Counting: the rows that placements block cannot cover the first Weight + 1
      rows, so a slot is found no further down than that, if the board reaches it. */
  lemma RoomWithinWeight(ps: seq<Placement>)
    requires Weight(ps) <= LAST_ROW
    ensures !Full(ps)
    ensures forall x: nat, y: nat :: FirstFree(ps, x, y) ==> y <= Weight(ps)
  {
    var rows := Span(0, Weight(ps) + 1);
    var blocked := BlockedRows(ps);
    FewBlockedRows(ps);
    if rows <= blocked {
      SubsetSize(rows, blocked);
      assert false;
    }
    var y: nat :| y in rows && y !in blocked;
    OutsideIsFree(ps, 0, y);
    assert Slot(0, y);
    forall x: nat, y': nat | FirstFree(ps, x, y') ensures y' <= Weight(ps) {
      assert !Earlier(0, y, x, y');
    }
  }

  /** A first slot exists whenever any is free. */
  lemma {:induction false} FirstFreeExists(ps: seq<Placement>, x: nat, y: nat) returns (x': nat, y': nat)
    requires Slot(x, y) && !Blocked(ps, x, y)
    ensures FirstFree(ps, x', y') && !Earlier(x, y, x', y')
    decreases y, x
  {
    if FirstFree(ps, x, y) {
      x', y' := x, y;
    } else {
      var u: nat, v: nat :| Slot(u, v) && Earlier(u, v, x, y) && !Blocked(ps, u, v);
      x', y' := FirstFreeExists(ps, u, v);
    }
  }

  // ---- any run of pins and unpins ----

  datatype Edit = Pin(ref: Ref, id: string) | Unpin(id: string)

  ghost predicate Step(before: seq<Placement>, edit: Edit, after: seq<Placement>) {
    match edit
    case Pin(ref, id) => |before| < 200 && PinnedOn(before, after, ref, id)
    case Unpin(id) => (exists p :: p in before && p.id == id) && after == Without(before, id)
  }

  ghost predicate Run(boards: seq<seq<Placement>>, edits: seq<Edit>) {
    && |boards| == |edits| + 1 && boards[0] == []
    && forall i :: 0 <= i < |edits| ==> Step(boards[i], edits[i], boards[i + 1])
  }

  /** The two commands are such steps, and keep the rest of the board. */
  lemma CommandsAreSteps(frame: Frame, ref: Ref, id: string, pinned: Command)
    requires pinned == CommandFor(frame, pinned.placements) && |Placements(frame)| < 200
    requires PinnedOn(Placements(frame), pinned.placements, ref, id)
    ensures Step(Placements(frame), Pin(ref, id), pinned.placements)
    ensures UnpinCommand(frame, id).Ok? <==> exists p :: p in Placements(frame) && p.id == id
    ensures UnpinCommand(frame, id).Ok? ==>
      && Step(Placements(frame), Unpin(id), UnpinCommand(frame, id).value.placements)
      && UnpinCommand(frame, id).value == Replace(frame.board.value.id, frame.board.value.revision,
           frame.board.value.title, UnpinCommand(frame, id).value.placements)
  {
  }

  /** Pairwise disjoint cards of the pinned size, on the board. */
  ghost predicate Tidy(ps: seq<Placement>) {
    |ps| <= 200 && Disjoint(ps) && forall p :: p in ps ==> p.w == 6 && p.h == 2 && Slot(p.x, p.y)
  }

  lemma DisjointCons(p: Placement, ps: seq<Placement>)
    requires Disjoint(ps) && forall q :: q in ps ==> !Overlap(p, q)
    ensures Disjoint([p] + ps)
  {
  }

  lemma DisjointTail(ps: seq<Placement>)
    requires Disjoint(ps) && ps != []
    ensures Disjoint(ps[1..]) && forall q :: q in ps[1..] ==> !Overlap(ps[0], q)
  {
  }

  lemma {:induction false} WithoutDisjoint(ps: seq<Placement>, id: string)
    requires Disjoint(ps)
    ensures Disjoint(Without(ps, id)) && |Without(ps, id)| <= |ps|
  {
    if ps == [] {
    } else {
      DisjointTail(ps);
      WithoutDisjoint(ps[1..], id);
      if ps[0].id != id {
        DisjointCons(ps[0], Without(ps[1..], id));
      } else {
        assert Without(ps, id) == Without(ps[1..], id);
      }
    }
  }

  lemma StepTidy(before: seq<Placement>, edit: Edit, after: seq<Placement>)
    requires Tidy(before) && Step(before, edit, after)
    ensures Tidy(after)
  {
    match edit
    case Unpin(id) => WithoutDisjoint(before, id);
    case Pin(ref, id) =>
      var n := |before|;
      assert forall i :: 0 <= i < n ==> after[i] == after[..n][i];
      forall i, j | 0 <= i < j < |after| ensures !Overlap(after[i], after[j]) {
        if j == n {
          assert !Blocked(before, after[n].x, after[n].y);
          assert before[i] == after[i];
        } else {
          assert !Overlap(before[i], before[j]);
        }
      }
      forall q | q in after ensures q.w == 6 && q.h == 2 && Slot(q.x, q.y) {
        var i :| 0 <= i < |after| && after[i] == q;
        assert i < n ==> q in before;
      }
  }

  /** Every board of every run from an empty one is tidy. */
  lemma {:induction false} RunTidy(boards: seq<seq<Placement>>, edits: seq<Edit>, k: nat)
    requires Run(boards, edits) && k < |boards|
    ensures Tidy(boards[k])
  {
    if k == 0 {
    } else {
      RunTidy(boards, edits, k - 1);
      StepTidy(boards[k - 1], edits[k - 1], boards[k]);
    }
  }

  lemma {:induction false} TidyWeight(ps: seq<Placement>)
    requires forall p :: p in ps ==> p.h == 2
    ensures Weight(ps) == 3 * |ps|
  {
    if ps == [] {
    } else {
      TidyWeight(ps[1..]);
    }
  }

  /** Along such a run a pin is refused for want of room never: below the card
      limit a slot exists, and no pinned card lies further down than three rows per
      card on the board. */
  lemma RunHasRoom(boards: seq<seq<Placement>>, edits: seq<Edit>, k: nat)
    requires Run(boards, edits) && k < |boards|
    ensures !Full(boards[k])
    ensures forall x: nat, y: nat :: FirstFree(boards[k], x, y) ==> y <= 3 * |boards[k]|
  {
    RunTidy(boards, edits, k);
    TidyWeight(boards[k]);
    RoomWithinWeight(boards[k]);
  }

  // ---- the views of the cards, fetched in batches ----

  /** One answer of the backend: its epoch and the references of the views it lists. */
  datatype Answer = Answer(epoch: string, refs: seq<Ref>)

  /** Each reference once, in order of first appearance. */
  function DistinctRefs(ps: seq<Placement>): (refs: seq<Ref>)
    ensures forall r :: r in refs <==> exists i :: 0 <= i < |ps| && ps[i].ref == r
    ensures forall i, j :: 0 <= i < j < |refs| ==> refs[i] != refs[j]
  {
    if ps == [] then []
    else
      var before, last := DistinctRefs(ps[..|ps| - 1]), ps[|ps| - 1];
      assert forall i :: 0 <= i < |ps| - 1 ==> ps[..|ps| - 1][i] == ps[i];
      assert ps[|ps| - 1].ref == last.ref;
      if last.ref in before then before else before + [last.ref]
  }

  /** No batch is empty or too large, and the first `full` ones are filled. */
  ghost predicate Sized(queries: seq<seq<Ref>>, maxQueryRefs: nat, full: int) {
    forall n :: 0 <= n < |queries| ==> SizedBatch(queries[n], maxQueryRefs, n < full)
  }

  predicate SizedBatch(batch: seq<Ref>, maxQueryRefs: nat, full: bool) {
    1 <= |batch| <= maxQueryRefs && (full ==> |batch| == maxQueryRefs)
  }

  /** The n-th batch is answered from the epoch, with exactly its views. */
  predicate Answered(backend: (nat, seq<Ref>) -> Option<Answer>, epoch: string, n: nat, batch: seq<Ref>) {
    backend(n, batch) == Some(Answer(epoch, batch))
  }

  /** The batching loop of a frame read. The backend answers call n with
      `backend(n, batch)`, whatever that is, or not at all. On success the items
      are the views of the board's references, one for each and in that order, all
      from one epoch. */
  method ReadItems(placements: seq<Placement>, epoch: string, maxQueryRefs: nat,
                   backend: (nat, seq<Ref>) -> Option<Answer>)
    returns (items: Option<seq<Ref>>, queries: seq<seq<Ref>>)
    requires 1 <= maxQueryRefs <= 50
    ensures items.Some? ==> items.value == DistinctRefs(placements) == Flat(queries)
    ensures Flat(queries) <= DistinctRefs(placements)
    ensures Sized(queries, maxQueryRefs, |queries| - 1)
    ensures forall n :: 0 <= n < |queries| ==>
              1 <= |queries[n]| <= maxQueryRefs && (n < |queries| - 1 ==> |queries[n]| == maxQueryRefs)
    ensures items.Some? <==> forall n :: 0 <= n < |queries| ==> Answered(backend, epoch, n, queries[n])
    ensures items.Some? <==> forall n :: 0 <= n < |queries| ==> backend(n, queries[n]) == Some(Answer(epoch, queries[n]))
  {
    var refs := DistinctRefs(placements);
    var got: seq<Ref> := [];
    queries := [];
    var offset := 0;
    while offset < |refs|
      invariant 0 <= offset
      invariant Sized(queries, maxQueryRefs, |queries| - if offset < |refs| then 0 else 1)
      invariant Flat(queries) == got == refs[..if offset < |refs| then offset else |refs|]
      invariant forall n :: 0 <= n < |queries| ==> Answered(backend, epoch, n, queries[n])
      decreases |refs| - offset
    {
      var end := if offset + maxQueryRefs < |refs| then offset + maxQueryRefs else |refs|;
      var batch := refs[offset..end];
      var response := backend(|queries|, batch);
      FlatAppend(queries, batch);
      assert refs[..offset] + batch == refs[..end];
      queries := queries + [batch];
      if response.None? || response.value.epoch != epoch || response.value.refs != batch {
        assert !Answered(backend, epoch, |queries| - 1, queries[|queries| - 1]);
        return None, queries;
      }
      got := got + response.value.refs;
      offset := offset + maxQueryRefs;
    }
    items := Some(got);
  }

  function Flat(parts: seq<seq<Ref>>): seq<Ref> {
    if parts == [] then [] else parts[0] + Flat(parts[1..])
  }

  lemma {:induction false} FlatAppend(parts: seq<seq<Ref>>, part: seq<Ref>)
    ensures Flat(parts + [part]) == Flat(parts) + part
  {
    if parts == [] {
      assert [part][1..] == [];
    } else {
      assert (parts + [part])[1..] == parts[1..] + [part];
      FlatAppend(parts[1..], part);
    }
  }

  // ---- boards, rows and references in their own terms ----

  /** The slots are the places of the two columns where a pinned card stays on the board. */
  lemma SlotIffFits(p: Placement)
    requires p.w == 6 && p.h == 2
    ensures Slot(p.x, p.y) <==> (p.x == 0 || p.x == 6) && InBounds(p)
  {
  }

  /** Filtering goes card by card and keeps the order. */
  lemma {:induction false} WithoutConcat(a: seq<Placement>, b: seq<Placement>, p: Placement, id: string)
    ensures Without(a + b, id) == Without(a, id) + Without(b, id)
    ensures Without([p], id) == if p.id == id then [] else [p]
  {
    assert [p][1..] == [];
    if a == [] {
      assert a + b == b;
    } else {
      assert (a + b)[1..] == a[1..] + b && (a + b)[0] == a[0];
      WithoutConcat(a[1..], b, p, id);
    }
  }

  /** The references come in the order in which they first appear: one more card adds
      its reference at the end, if it is new. */
  lemma RefsInOrder(ps: seq<Placement>, p: Placement)
    ensures DistinctRefs(ps + [p]) ==
            DistinctRefs(ps) + if (forall i :: 0 <= i < |ps| ==> ps[i].ref != p.ref) then [p.ref] else []
  {
    assert (ps + [p])[..|ps|] == ps;
  }

  predicate Covers(p: Placement, x: nat, y: nat) { p.x <= x < p.x + p.w && p.y <= y < p.y + p.h }

  /** Two cards overlap exactly when some cell is covered by both. */
  lemma OverlapIsSharedCell(p: Placement, q: Placement)
    requires p.w > 0 && p.h > 0 && q.w > 0 && q.h > 0
    ensures Overlap(p, q) <==> exists x: nat, y: nat :: Covers(p, x, y) && Covers(q, x, y)
  {
    if Overlap(p, q) {
      var x, y := if p.x > q.x then p.x else q.x, if p.y > q.y then p.y else q.y;
      assert Covers(p, x, y) && Covers(q, x, y);
    }
  }

  /** A place is blocked exactly when the card pinned there would overlap one on the board. */
  lemma BlockedIsOverlap(ps: seq<Placement>, card: Placement)
    requires card.w == 6 && card.h == 2
    ensures Blocked(ps, card.x, card.y) <==> exists p :: p in ps && Overlap(card, p)
  {
    if i :| 0 <= i < |ps| && card.x < ps[i].x + ps[i].w && ps[i].x < card.x + 6 &&
            card.y < ps[i].y + ps[i].h && ps[i].y < card.y + 2 {
      assert ps[i] in ps && Overlap(card, ps[i]);
    }
    if p :| p in ps && Overlap(card, p) {
      var i :| 0 <= i < |ps| && ps[i] == p;
      assert card.x < ps[i].x + ps[i].w;
    }
  }

  /** A card is in bounds exactly when it has cells and all lie on the 12 by 10000 board. */
  lemma InBoundsIsOnBoard(p: Placement)
    ensures InBounds(p) <==> p.w > 0 && p.h > 0 && forall x: nat, y: nat :: Covers(p, x, y) ==> x < 12 && y < 10_000
  {
    if p.w > 0 && p.h > 0 && forall x: nat, y: nat :: Covers(p, x, y) ==> x < 12 && y < 10_000 {
      assert Covers(p, p.x + p.w - 1, p.y + p.h - 1);
    }
  }
}
