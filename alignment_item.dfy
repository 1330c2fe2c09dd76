/**
 * One segment of the timeline, components/alignment-item/element.js: its
 * colour, its `playing` border, and the hover-intent controller that opens
 * and closes its phoneme dialog through two 100 ms timers.
 */
module ItemElement {
  import opened Wrappers
  import opened Alignments
  import opened DialogElement

  // ---------------------------------------------------------------------------
  // getColor

  /** The five colour variables a segment can take. */
  datatype ColorToken = Blue4 | Yellow4 | Red4 | Blue1 | Green4

  function CssName(c: ColorToken): string {
    match c
    case Blue4 => "--blue-4"
    case Yellow4 => "--yellow-4"
    case Red4 => "--red-4"
    case Blue1 => "--blue-1"
    case Green4 => "--green-4"
  }

  predicate OneError(a: Alignment) {
    a.phoneme.Some? && a.phoneme.value.numErrors == 1
  }

  predicate ManyErrors(a: Alignment) {
    a.phoneme.Some? && a.phoneme.value.numErrors > 1
  }

  /**
   * First match wins: pause, exactly one phoneme error, more than one,
   * not a word (silence), and otherwise a clean word.
   */
  function GetColor(a: Alignment): (c: ColorToken)
    ensures c == Blue4 <==> IsPause(a)
    ensures c == Yellow4 <==> !IsPause(a) && OneError(a)
    ensures c == Red4 <==> !IsPause(a) && ManyErrors(a)
    ensures c == Blue1 <==> a.word == SilenceWord && !OneError(a) && !ManyErrors(a)
    ensures c == Green4 <==> IsWord(a) && !OneError(a) && !ManyErrors(a)
  {
    if IsPause(a) then Blue4
    else if a.phoneme.Some? && a.phoneme.value.numErrors == 1 then Yellow4
    else if a.phoneme.Some? && a.phoneme.value.numErrors > 1 then Red4
    else if !IsWord(a) then Blue1
    else Green4
  }

  /**
   * setStyleProperties asks for a colour only for pauses and words, so a
   * styled segment is never `--blue-1`.
   */
  lemma StyledColorNeverBlue1(a: Alignment)
    requires IsPause(a) || IsWord(a)
    ensures GetColor(a) != Blue1
  {
  }

  // ---------------------------------------------------------------------------
  // Timers

  /**
   * A pending setTimeout callback with its id. Both delays are 100 ms, so
   * pending callbacks run in the order they were armed.
   */
  datatype Timer = ShowTimer(id: nat) | HideTimer(id: nat)

  /** clearTimeout: the pending callbacks without the one with this id. */
  function Cancel(ts: seq<Timer>, id: nat): (r: seq<Timer>)
    ensures forall t :: t in r <==> t in ts && t.id != id
    ensures |r| <= |ts|
  {
    if ts == [] then []
    else (if ts[0].id == id then [] else [ts[0]]) + Cancel(ts[1..], id)
  }

  // ---------------------------------------------------------------------------
  // The hover-intent state machine, as values

  /**
   * The item's hover state: its dialog's flags (None while no dialog
   * exists), the ids held in `_hoverTimeout` and `_hoverOutTimeout` (0 for
   * null), the pending callbacks in firing order and the next timer id.
   */
  datatype ItemState = ItemState(
    dialog: Option<DialogFlags>,
    hoverTimeout: nat,
    hoverOutTimeout: nat,
    timers: seq<Timer>,
    nextTimerId: nat)

  const Initial: ItemState := ItemState(None, 0, 0, [], 1)

  /** The events the item and its dialog react to. */
  datatype HoverEvent =
    | MouseEnter | MouseLeave | Focus | Blur
    | TimerElapses
    | ContentMouseOver | ContentMouseLeave

  /** handleDialogOpen would construct a dialog now. */
  predicate CreatesDialog(a: Alignment, s: ItemState) {
    s.dialog.None? && a.phoneme.Some?
  }

  /** The dialog constructor throws, which aborts handleDialogOpen. */
  predicate OpenThrows(a: Alignment, s: ItemState) {
    CreatesDialog(a, s) && !TokenCountsMatch(a.phoneme.value)
  }

  /** handleDialogOpen (mouseenter and focus). */
  function OpenStep(a: Alignment, s: ItemState): (r: ItemState)
    ensures OpenThrows(a, s) ==> r == s
    ensures !OpenThrows(a, s) ==>
      && r.hoverTimeout == s.nextTimerId && r.nextTimerId == s.nextTimerId + 1
      && |r.timers| > 0 && r.timers[|r.timers| - 1] == ShowTimer(s.nextTimerId)
      && r.hoverOutTimeout == s.hoverOutTimeout
      && (s.hoverOutTimeout != 0 ==> forall t :: t in r.timers && t != ShowTimer(s.nextTimerId) ==> t.id != s.hoverOutTimeout)
      && (forall t :: t in r.timers ==> t in s.timers || t == ShowTimer(s.nextTimerId))
      && (forall t :: t in s.timers && (s.hoverOutTimeout == 0 || t.id != s.hoverOutTimeout) ==> t in r.timers)
    ensures !OpenThrows(a, s) ==>
      r.timers == (if s.hoverOutTimeout != 0 then Cancel(s.timers, s.hoverOutTimeout) else s.timers) + [ShowTimer(s.nextTimerId)]
    ensures CreatesDialog(a, s) && !OpenThrows(a, s) ==> r.dialog == Some(InitialFlags(true))
    ensures s.dialog.Some? ==> r.dialog == s.dialog
    ensures a.phoneme.None? ==> r.dialog.None? == s.dialog.None?
    ensures s.dialog.None? && r.dialog.Some? ==> a.phoneme.Some? && r.dialog == Some(InitialFlags(true))
  {
    if OpenThrows(a, s) then s
    else
      var dialog := if CreatesDialog(a, s) then Some(InitialFlags(true)) else s.dialog;
      var timers := if s.hoverOutTimeout != 0 then Cancel(s.timers, s.hoverOutTimeout) else s.timers;
      s.(dialog := dialog,
         timers := timers + [ShowTimer(s.nextTimerId)],
         hoverTimeout := s.nextTimerId,
         nextTimerId := s.nextTimerId + 1)
  }

  /** handleDialogClose (mouseleave and blur): arms a hide timer and nothing else. */
  function CloseStep(s: ItemState): (r: ItemState)
    ensures r.timers == s.timers + [HideTimer(s.nextTimerId)]
    ensures r.hoverOutTimeout == s.nextTimerId && r.nextTimerId == s.nextTimerId + 1
    ensures r.dialog == s.dialog && r.hoverTimeout == s.hoverTimeout
  {
    s.(timers := s.timers + [HideTimer(s.nextTimerId)],
       hoverOutTimeout := s.nextTimerId,
       nextTimerId := s.nextTimerId + 1)
  }

  /**
   * The oldest pending callback runs. A show callback calls showModal on the
   * dialog if there is one; a hide callback, when `_hoverTimeout` is set, a
   * dialog exists and it is not hovered, cancels `_hoverTimeout` and calls
   * closeModal. Otherwise only the callback leaves the queue.
   */
  function TimerStep(a: Alignment, s: ItemState): (r: ItemState)
    ensures s.timers == [] ==> r == s
    ensures s.timers != [] ==> |r.timers| < |s.timers| && r.nextTimerId == s.nextTimerId
    ensures r.dialog.Some? == s.dialog.Some?
    ensures s.timers != [] && s.timers[0].ShowTimer? ==>
      && r.timers == s.timers[1..]
      && r.dialog == (if s.dialog.Some? then Some(ShowModalStep(s.dialog.value, a.phoneme.Some?)) else None)
      && r.hoverTimeout == s.hoverTimeout && r.hoverOutTimeout == s.hoverOutTimeout
    ensures s.timers != [] && s.timers[0].HideTimer? ==>
      if s.hoverTimeout != 0 && s.dialog.Some? && !s.dialog.value.hovered then
        r == s.(timers := Cancel(s.timers[1..], s.hoverTimeout), dialog := Some(CloseModalStep(s.dialog.value)))
      else
        r == s.(timers := s.timers[1..])
  {
    if s.timers == [] then s
    else
      var rest := s.timers[1..];
      match s.timers[0]
      case ShowTimer(_) =>
        s.(timers := rest,
           dialog := if s.dialog.Some? then Some(ShowModalStep(s.dialog.value, a.phoneme.Some?)) else None)
      case HideTimer(_) =>
        if s.hoverTimeout != 0 && s.dialog.Some? && !s.dialog.value.hovered then
          s.(timers := Cancel(rest, s.hoverTimeout), dialog := Some(CloseModalStep(s.dialog.value)))
        else
          s.(timers := rest)
  }

  /**
   * Pointer events on the dialog content reach the dialog's own handlers:
   * `mouseover` runs onHoverIntent once it is installed (it is, whenever
   * the entry has phoneme data), and `mouseleave` runs the attached
   * closeModal listeners. No timer is touched.
   */
  function ContentStep(a: Alignment, s: ItemState, over: bool): (r: ItemState)
    ensures r.timers == s.timers && r.hoverTimeout == s.hoverTimeout
    ensures r.hoverOutTimeout == s.hoverOutTimeout && r.nextTimerId == s.nextTimerId
    ensures r.dialog.Some? <==> s.dialog.Some?
    ensures s.dialog.Some? && over && a.phoneme.Some? ==>
      r.dialog.value.hovered && r.dialog.value.leaveListeners == s.dialog.value.leaveListeners + 1
    ensures s.dialog.Some? && over && a.phoneme.Some? ==> r.dialog == Some(HoverIntentStep(s.dialog.value))
    ensures s.dialog.Some? && !over ==> r.dialog == Some(BodyLeaveStep(s.dialog.value))
  {
    match s.dialog
    case None => s
    case Some(f) =>
      if over then s.(dialog := Some(if a.phoneme.Some? then HoverIntentStep(f) else f))
      else s.(dialog := Some(BodyLeaveStep(f)))
  }

  /**
   * The listeners wired in the item's constructor (mouseenter and focus to
   * handleDialogOpen, mouseleave and blur to handleDialogClose), the timer
   * queue, and the dialog content's own listeners.
   */
  function Step(a: Alignment, s: ItemState, e: HoverEvent): (r: ItemState)
    ensures r.nextTimerId >= s.nextTimerId
    ensures s.dialog.Some? ==> r.dialog.Some?
    ensures (e == MouseLeave || e == Blur) ==> r.timers == s.timers + [HideTimer(s.nextTimerId)]
    ensures e.ContentMouseOver? || e.ContentMouseLeave? ==> r.timers == s.timers
  {
    match e
    case MouseEnter => OpenStep(a, s)
    case Focus => OpenStep(a, s)
    case MouseLeave => CloseStep(s)
    case Blur => CloseStep(s)
    case TimerElapses => TimerStep(a, s)
    case ContentMouseOver => ContentStep(a, s, true)
    case ContentMouseLeave => ContentStep(a, s, false)
  }

  /** The events in `es`, handled one at a time in order. */
  function Run(a: Alignment, s: ItemState, es: seq<HoverEvent>): (r: ItemState)
    ensures r.nextTimerId >= s.nextTimerId
    decreases |es|
  {
    if es == [] then s else Run(a, Step(a, s, es[0]), es[1..])
  }

  /** Handling two event sequences one after the other is handling their concatenation. */
  lemma {:induction false} RunAppend(a: Alignment, s: ItemState, xs: seq<HoverEvent>, ys: seq<HoverEvent>)
    ensures Run(a, s, xs + ys) == Run(a, Run(a, s, xs), ys)
    decreases |xs|
  {
    if xs == [] {
      assert xs + ys == ys;
    } else {
      assert (xs + ys)[0] == xs[0];
      assert (xs + ys)[1..] == xs[1..] + ys;
      RunAppend(a, Step(a, s, xs[0]), xs[1..], ys);
    }
  }

  /** What holds in every state the item can reach. */
  ghost predicate Inv(a: Alignment, s: ItemState) {
    && s.nextTimerId >= 1
    && s.hoverTimeout < s.nextTimerId
    && s.hoverOutTimeout < s.nextTimerId
    && (forall t :: t in s.timers ==> 0 < t.id < s.nextTimerId)
    && (s.dialog.Some? ==> a.phoneme.Some? && TokenCountsMatch(a.phoneme.value))
    && (s.dialog.Some? ==> s.hoverTimeout != 0)
  }

  lemma StepKeepsInv(a: Alignment, s: ItemState, e: HoverEvent)
    requires Inv(a, s)
    ensures Inv(a, Step(a, s, e))
  {
  }

  lemma {:induction false} RunKeepsInv(a: Alignment, s: ItemState, es: seq<HoverEvent>)
    requires Inv(a, s)
    ensures Inv(a, Run(a, s, es))
    decreases |es|
  {
    if es != [] {
      StepKeepsInv(a, s, es[0]);
      RunKeepsInv(a, Step(a, s, es[0]), es[1..]);
    }
  }

  /** An entry without phoneme data, or with mismatched token counts, never gets a dialog. */
  lemma NoDialogWithoutDiffableData(a: Alignment, es: seq<HoverEvent>)
    requires a.phoneme.None? || !TokenCountsMatch(a.phoneme.value)
    ensures Run(a, Initial, es).dialog.None?
  {
    RunKeepsInv(a, Initial, es);
  }

  /** Once created, the dialog is never dropped or replaced by a second one. */
  lemma {:induction false} DialogKept(a: Alignment, s: ItemState, es: seq<HoverEvent>)
    requires s.dialog.Some?
    ensures Run(a, s, es).dialog.Some?
    decreases |es|
  {
    if es != [] {
      DialogKept(a, Step(a, s, es[0]), es[1..]);
    }
  }

  /** Focus and blur drive the same transitions as mouseenter and mouseleave. */
  lemma FocusIsHover(a: Alignment, s: ItemState)
    ensures Step(a, s, Focus) == Step(a, s, MouseEnter)
    ensures Step(a, s, Blur) == Step(a, s, MouseLeave)
  {
  }

  /**
   * In a reachable state `_hoverTimeout` is set whenever a dialog exists, so
   * a hide callback closes the dialog exactly when it is not hovered.
   */
  lemma HideClosesUnlessHovered(a: Alignment, s: ItemState)
    requires Inv(a, s) && s.dialog.Some?
    requires s.timers != [] && s.timers[0].HideTimer?
    ensures var r := Step(a, s, TimerElapses);
      r.dialog == Some(if s.dialog.value.hovered then s.dialog.value else CloseModalStep(s.dialog.value))
  {
  }

  /**
   * Entering the segment (with phoneme data and matching token counts)
   * shows the dialog at once, since the dialog's constructor calls
   * showModal; leaving and letting both callbacks run closes it.
   */
  lemma FirstHoverShowsAtOnce(a: Alignment)
    requires a.phoneme.Some? && TokenCountsMatch(a.phoneme.value)
    ensures Run(a, Initial, [MouseEnter]).dialog == Some(InitialFlags(true))
    ensures Run(a, Initial, [MouseEnter]).dialog.value.showClass
    ensures var r := Run(a, Initial, [MouseEnter, MouseLeave, TimerElapses, TimerElapses]);
      r.dialog.Some? && !r.dialog.value.showClass && r.dialog.value.hideClass && r.timers == []
  {
    var s1 := Step(a, Initial, MouseEnter);
    var s2 := Step(a, s1, MouseLeave);
    var s3 := Step(a, s2, TimerElapses);
    assert s2.timers == [ShowTimer(1), HideTimer(2)];
    assert s3.timers == [HideTimer(2)];
    var s4 := Step(a, s3, TimerElapses);
    assert s4.timers == [];
    assert Run(a, Initial, [MouseEnter]) == Run(a, s1, []);
    assert Run(a, Initial, [MouseEnter, MouseLeave, TimerElapses, TimerElapses]) == Run(a, s1, [MouseLeave, TimerElapses, TimerElapses]);
    assert Run(a, s1, [MouseLeave, TimerElapses, TimerElapses]) == Run(a, s2, [TimerElapses, TimerElapses]);
    assert Run(a, s2, [TimerElapses, TimerElapses]) == Run(a, s3, [TimerElapses]);
  }

  /**
   * Leaving does not cancel the show callback: on a closed dialog, enter
   * then leave at once still shows the dialog when the show callback runs,
   * and the hide callback closes it after that.
   */
  lemma QuickLeaveStillShows(a: Alignment, s: ItemState)
    requires Inv(a, s) && s.dialog.Some? && !s.dialog.value.showClass && !s.dialog.value.hovered
    requires s.timers == []
    ensures var r := Run(a, s, [MouseEnter, MouseLeave, TimerElapses]);
      r.dialog.value.showClass
    ensures var r := Run(a, s, [MouseEnter, MouseLeave, TimerElapses, TimerElapses]);
      !r.dialog.value.showClass && r.timers == []
  {
    var s1 := Step(a, s, MouseEnter);
    var s2 := Step(a, s1, MouseLeave);
    var s3 := Step(a, s2, TimerElapses);
    var s4 := Step(a, s3, TimerElapses);
    assert s2.timers == [ShowTimer(s.nextTimerId), HideTimer(s.nextTimerId + 1)];
    assert s3.timers == [HideTimer(s.nextTimerId + 1)];
    assert s4.timers == [];
    assert Run(a, s, [MouseEnter, MouseLeave, TimerElapses]) == Run(a, s1, [MouseLeave, TimerElapses]);
    assert Run(a, s1, [MouseLeave, TimerElapses]) == Run(a, s2, [TimerElapses]);
    assert Run(a, s, [MouseEnter, MouseLeave, TimerElapses, TimerElapses]) == Run(a, s1, [MouseLeave, TimerElapses, TimerElapses]);
    assert Run(a, s1, [MouseLeave, TimerElapses, TimerElapses]) == Run(a, s2, [TimerElapses, TimerElapses]);
    assert Run(a, s2, [TimerElapses, TimerElapses]) == Run(a, s3, [TimerElapses]);
  }

  /**
   * Hover-hold: with the dialog shown, leaving the segment and entering the
   * dialog content before the hide callback runs keeps the dialog open;
   * leaving the content then closes it at once. The dialog sits inside the
   * segment's slot, so in the browser the pointer reaches the content
   * without a `mouseleave`; this sequence arises through a Blur, which
   * FocusIsHover makes the same transition as MouseLeave.
   */
  lemma HoverHoldKeepsDialog(a: Alignment, s: ItemState)
    requires Inv(a, s) && s.dialog.Some? && s.dialog.value.showClass
    requires s.timers == []
    ensures var r := Run(a, s, [MouseLeave, ContentMouseOver, TimerElapses]);
      r.dialog.value.showClass && r.dialog.value.hovered && r.timers == []
    ensures var r := Run(a, s, [MouseLeave, ContentMouseOver, TimerElapses, ContentMouseLeave]);
      !r.dialog.value.showClass && r.dialog.value.hideClass && !r.dialog.value.hovered
  {
    var s1 := Step(a, s, MouseLeave);
    var s2 := Step(a, s1, ContentMouseOver);
    var s3 := Step(a, s2, TimerElapses);
    var s4 := Step(a, s3, ContentMouseLeave);
    assert s1.timers == [HideTimer(s.nextTimerId)];
    assert s3.timers == [];
    assert Run(a, s, [MouseLeave, ContentMouseOver, TimerElapses]) == Run(a, s1, [ContentMouseOver, TimerElapses]);
    assert Run(a, s1, [ContentMouseOver, TimerElapses]) == Run(a, s2, [TimerElapses]);
    assert Run(a, s, [MouseLeave, ContentMouseOver, TimerElapses, ContentMouseLeave])
        == Run(a, s1, [ContentMouseOver, TimerElapses, ContentMouseLeave]);
    assert Run(a, s1, [ContentMouseOver, TimerElapses, ContentMouseLeave]) == Run(a, s2, [TimerElapses, ContentMouseLeave]);
    assert Run(a, s2, [TimerElapses, ContentMouseLeave]) == Run(a, s3, [ContentMouseLeave]);
  }

  /** Re-entering before the hide callback runs cancels it: only the new show callback is added. */
  lemma ReenterCancelsHide(a: Alignment, s: ItemState)
    requires Inv(a, s) && s.dialog.Some?
    ensures Run(a, s, [MouseLeave, MouseEnter]).timers == s.timers + [ShowTimer(s.nextTimerId + 1)]
  {
    var n := s.nextTimerId;
    var s1 := CloseStep(s);
    assert s1.timers == s.timers + [HideTimer(n)] && s1.hoverOutTimeout == n;
    CancelLast(s.timers, HideTimer(n));
    var s2 := OpenStep(a, s1);
    assert s2.timers == Cancel(s1.timers, n) + [ShowTimer(n + 1)];
    assert Run(a, s1, [MouseEnter]) == s2;
    assert Run(a, s, [MouseLeave, MouseEnter]) == Run(a, s1, [MouseEnter]);
  }

  /** clearTimeout keeps the firing order: it works on each part of a queue separately. */
  lemma {:induction false} CancelAppend(xs: seq<Timer>, ys: seq<Timer>, id: nat)
    ensures Cancel(xs + ys, id) == Cancel(xs, id) + Cancel(ys, id)
  {
    if xs == [] {
      assert xs + ys == ys;
    } else {
      assert (xs + ys)[0] == xs[0];
      assert (xs + ys)[1..] == xs[1..] + ys;
      CancelAppend(xs[1..], ys, id);
    }
  }

  lemma {:induction false} CancelAbsent(ts: seq<Timer>, id: nat)
    requires forall t :: t in ts ==> t.id != id
    ensures Cancel(ts, id) == ts
  {
    if ts != [] {
      CancelAbsent(ts[1..], id);
      assert ts == [ts[0]] + ts[1..];
    }
  }

  lemma {:induction false} CancelLast(ts: seq<Timer>, t: Timer)
    requires forall u :: u in ts ==> u.id != t.id
    ensures Cancel(ts + [t], t.id) == ts
  {
    if ts == [] {
      assert [] + [t] == [t];
      assert Cancel([t], t.id) == [] + Cancel([], t.id);
    } else {
      assert (ts + [t])[1..] == ts[1..] + [t];
      CancelLast(ts[1..], t);
      assert ts == [ts[0]] + ts[1..];
    }
  }

  /**
   * Only the latest hide timer is remembered: after a leave and a blur, a
   * re-enter cancels the second hide callback but not the first, which then
   * closes the dialog and cancels the new show callback, although the
   * pointer is back on the segment.
   */
  lemma LeaveBlurReenterCloses(a: Alignment, s: ItemState)
    requires Inv(a, s) && s.dialog.Some? && s.dialog.value.showClass && !s.dialog.value.hovered
    requires s.timers == []
    ensures var r := Run(a, s, [MouseLeave, Blur, MouseEnter, TimerElapses]);
      !r.dialog.value.showClass && r.timers == []
  {
    var n := s.nextTimerId;
    var s1 := CloseStep(s);
    var s2 := CloseStep(s1);
    assert s2.timers == [HideTimer(n), HideTimer(n + 1)] && s2.hoverOutTimeout == n + 1;
    assert Cancel(s2.timers, n + 1) == [HideTimer(n)] by {
      assert s2.timers[1..] == [HideTimer(n + 1)];
    }
    var s3 := OpenStep(a, s2);
    assert s3.timers == [HideTimer(n), ShowTimer(n + 2)] && s3.hoverTimeout == n + 2;
    assert s3.dialog == s.dialog;
    assert s3.timers[1..] == [ShowTimer(n + 2)];
    assert Cancel([ShowTimer(n + 2)], n + 2) == [];
    var s4 := TimerStep(a, s3);
    assert s4.timers == [] && !s4.dialog.value.showClass;
    assert Run(a, s3, [TimerElapses]) == s4;
    assert Run(a, s2, [MouseEnter, TimerElapses]) == Run(a, s3, [TimerElapses]);
    assert Run(a, s1, [Blur, MouseEnter, TimerElapses]) == Run(a, s2, [MouseEnter, TimerElapses]);
    assert Run(a, s, [MouseLeave, Blur, MouseEnter, TimerElapses]) == Run(a, s1, [Blur, MouseEnter, TimerElapses]);
  }


  // ---------------------------------------------------------------------------
  // The element

  const PlayingAttribute: string := "playing"

  /** The `--border-color` style of the item slot. */
  datatype Border = NoBorder | BlueBorder | TransparentBorder

  class AlignmentItem {
    const data: Alignment
    /** The `--color` style; setStyleProperties sets it for pauses and words only. */
    const color: Option<ColorToken>
    var dialog: AlignmentDialog?
    var hoverTimeout: nat
    var hoverOutTimeout: nat
    var timers: seq<Timer>
    var nextTimerId: nat
    /** The `playing` attribute (None when unset). */
    var playing: Option<string>
    var border: Border

    ghost predicate Valid()
      reads this, dialog
    {
      && nextTimerId >= 1
      && (dialog != null ==> dialog.data == data && dialog.Valid() && (dialog.hoverIntentSet <==> data.phoneme.Some?))
    }

    function State(): ItemState
      reads this, dialog
    {
      ItemState(if dialog == null then None else Some(dialog.Flags()),
                hoverTimeout, hoverOutTimeout, timers, nextTimerId)
    }

    constructor (data: Alignment)
      ensures Valid() && State() == Initial && this.data == data
      ensures color == (if IsPause(data) || IsWord(data) then Some(GetColor(data)) else None)
      ensures playing.None? && border == NoBorder
    {
      this.data := data;
      color := if IsPause(data) || IsWord(data) then Some(GetColor(data)) else None;
      dialog := null;
      hoverTimeout, hoverOutTimeout := 0, 0;
      timers := [];
      nextTimerId := 1;
      playing := None;
      border := NoBorder;
    }

    /**
     * Construct the dialog; its constructor throws on mismatched token
     * counts, in which case the half-built dialog is dropped and nothing is
     * assigned.
     */
    method CreateDialogElement() returns (ok: bool)
      modifies this`dialog
      ensures ok <==> data.phoneme.None? || TokenCountsMatch(data.phoneme.value)
      ensures !ok ==> dialog == old(dialog)
      ensures ok ==> fresh(dialog) && dialog.data == data && dialog.Valid()
      ensures ok ==> dialog.Flags() == InitialFlags(data.phoneme.Some?)
      ensures ok ==> (dialog.hoverIntentSet <==> data.phoneme.Some?)
    {
      var d := new AlignmentDialog(data);
      if ConstructorThrows(data) {
        return false;
      }
      dialog := d;
      return true;
    }

    /** mouseenter and focus. */
    method HandleDialogOpen() returns (thrown: bool)
      requires Valid()
      modifies this`dialog, this`timers, this`hoverTimeout, this`nextTimerId
      ensures Valid()
      ensures thrown <==> OpenThrows(data, old(State()))
      ensures State() == OpenStep(data, old(State()))
      ensures old(dialog) != null ==> dialog == old(dialog)
      ensures dialog != old(dialog) ==> fresh(dialog)
    {
      thrown := false;
      if dialog == null && data.phoneme.Some? {
        var ok := CreateDialogElement();
        if !ok {
          thrown := true;
          return;
        }
      }
      if hoverOutTimeout != 0 {
        timers := Cancel(timers, hoverOutTimeout);
      }
      hoverTimeout := nextTimerId;
      timers := timers + [ShowTimer(nextTimerId)];
      nextTimerId := nextTimerId + 1;
    }

    /** mouseleave and blur. */
    method HandleDialogClose()
      requires Valid()
      modifies this`timers, this`hoverOutTimeout, this`nextTimerId
      ensures Valid()
      ensures State() == CloseStep(old(State()))
    {
      hoverOutTimeout := nextTimerId;
      timers := timers + [HideTimer(nextTimerId)];
      nextTimerId := nextTimerId + 1;
    }

    /** The oldest pending timeout callback runs. */
    method FireTimer()
      requires Valid() && timers != []
      modifies this`timers, dialog
      ensures Valid() && dialog == old(dialog)
      ensures State() == TimerStep(data, old(State()))
      ensures dialog != null ==> dialog.content == old(dialog.content) && dialog.hoverIntentSet == old(dialog.hoverIntentSet)
    {
      var t := timers[0];
      timers := timers[1..];
      match t
      case ShowTimer(_) =>
        if dialog != null {
          dialog.ShowModal();
        }
      case HideTimer(_) =>
        if hoverTimeout != 0 && dialog != null && !dialog.hovered {
          timers := Cancel(timers, hoverTimeout);
          dialog.CloseModal();
        }
    }

    /**
     * attributeChangedCallback. The browser calls it after writing the
     * attribute, so for `playing` the attribute already holds `newValue`. An
     * unchanged value does nothing; otherwise the border reads the attribute
     * back: blue for "true", transparent for anything else, including a
     * removed or empty attribute.
     */
    method AttributeChangedCallback(name: string, oldValue: Option<string>, newValue: Option<string>)
      requires name == PlayingAttribute ==> playing == newValue
      modifies this`border
      ensures playing == old(playing)
      ensures oldValue == newValue || name != PlayingAttribute ==> border == old(border)
      ensures oldValue != newValue && name == PlayingAttribute ==>
        && playing == newValue
        && border == (if newValue == Some("true") then BlueBorder else TransparentBorder)
    {
      if oldValue == newValue {
        return;
      }
      if name == PlayingAttribute {
        // The `playing` setter writes back the value the attribute already
        // holds; the callback that write triggers sees no change and returns.
        border := if playing == Some("true") then BlueBorder else TransparentBorder;
      }
    }

    /**
     * The browser writes the `playing` attribute (setAttribute, or
     * removeAttribute for None) and then calls attributeChangedCallback.
     */
    method WritePlayingAttribute(value: Option<string>)
      modifies this`playing, this`border
      ensures playing == value
      ensures value != old(playing) ==> border == if value == Some("true") then BlueBorder else TransparentBorder
      ensures value == old(playing) ==> border == old(border)
    {
      var previous := playing;
      playing := value;
      AttributeChangedCallback(PlayingAttribute, previous, value);
    }

    /** The `playing` setter: only a non-empty value is written to the attribute. */
    method SetPlaying(value: string)
      modifies this`playing, this`border
      ensures playing == if value != "" then Some(value) else old(playing)
      ensures value != "" && old(playing) != Some(value) ==>
        border == if value == "true" then BlueBorder else TransparentBorder
      ensures value == "" || old(playing) == Some(value) ==> border == old(border)
    {
      if value != "" {
        WritePlayingAttribute(Some(value));
      }
    }
  }
}
