/**
 * The player of one clip, components/audio-data-element/element.js: one
 * item per alignment entry, click-to-seek with a three-entry run-up, and
 * the `playing` flag of every item kept in step with playback time.
 */
module AudioElement {
  import opened Wrappers
  import opened Alignments
  import opened ItemElement

  /** How many entries back a click seeks to, for context. */
  const LookBack: nat := 3

  /** A request made to the audio element. */
  datatype Control = Pause | Seek(time: real) | Play

  /** What the element was constructed from: a model, or only an audio source. */
  datatype Source = FromModel(model: AudioData) | FromUrl(url: string)

  // ---------------------------------------------------------------------------
  // Click to seek

  /**
   * Where a click on entry `i` moves playback: nowhere when the entry's
   * start is 0 (falsy), else the end of entry `i - 3` when `i > 3`, else the
   * entry's own start.
   */
  function SeekTarget(alignment: seq<Alignment>, i: nat): (r: Option<real>)
    requires i < |alignment|
    ensures r.None? <==> alignment[i].boundary.start == 0.0
    ensures r.Some? && i > LookBack ==> r.value == alignment[i - LookBack].boundary.end
    ensures r.Some? && i <= LookBack ==> r.value == alignment[i].boundary.start
  {
    if alignment[i].boundary.start != 0.0 then
      Some(if i > LookBack then alignment[i - LookBack].boundary.end else alignment[i].boundary.start)
    else None
  }

  /** The requests one click makes: pause, then the seek if any, then play. */
  function ClickControls(alignment: seq<Alignment>, i: nat): (r: seq<Control>)
    requires i < |alignment|
    ensures 2 <= |r| <= 3 && r[0] == Pause && r[|r| - 1] == Play
    ensures |r| == 3 <==> SeekTarget(alignment, i).Some?
    ensures |r| == 3 ==> r[1] == Seek(SeekTarget(alignment, i).value)
  {
    match SeekTarget(alignment, i)
    case Some(t) => [Pause, Seek(t), Play]
    case None => [Pause, Play]
  }

  /** Entries are well formed and follow one another without overlap. */
  ghost predicate Ordered(s: seq<Alignment>) {
    && (forall k :: 0 <= k < |s| ==> s[k].boundary.start <= s[k].boundary.end)
    && (forall k :: 0 <= k < |s| - 1 ==> s[k].boundary.end <= s[k + 1].boundary.start)
  }

  /** In an ordered timeline an earlier entry ends no later than a later one starts. */
  lemma {:induction false} OrderedChain(s: seq<Alignment>, j: nat, i: nat)
    requires Ordered(s) && j < i < |s|
    ensures s[j].boundary.end <= s[i].boundary.start
    decreases i - j
  {
    if j + 1 < i {
      OrderedChain(s, j + 1, i);
      assert s[j + 1].boundary.start <= s[j + 1].boundary.end;
    }
  }

  /** On an ordered timeline the seek target lies at or before the clicked entry's start. */
  lemma SeekTargetIsRunUp(alignment: seq<Alignment>, i: nat)
    requires Ordered(alignment) && i < |alignment|
    ensures var r := SeekTarget(alignment, i);
      r.Some? ==> r.value <= alignment[i].boundary.start
  {
    if i > LookBack {
      OrderedChain(alignment, i - LookBack, i);
    }
  }

  /** Clicking entry 5 of 10 seeks to the end of entry 2; clicking entry 2 seeks to its own start. */
  lemma SeekExamples(alignment: seq<Alignment>)
    requires |alignment| == 10
    requires alignment[5].boundary.start != 0.0 && alignment[2].boundary.start != 0.0
    ensures SeekTarget(alignment, 5) == Some(alignment[2].boundary.end)
    ensures SeekTarget(alignment, 2) == Some(alignment[2].boundary.start)
  {
  }

  // ---------------------------------------------------------------------------
  // Time update

  /** The timeupdate test: both bounds truthy (non-zero) and `start <= t <= end`. */
  predicate IsActive(b: Boundary, t: real) {
    b.start != 0.0 && b.end != 0.0 && b.start <= t && t <= b.end
  }

  /** An entry that starts or ends at time 0 is never marked playing. */
  lemma ZeroBoundNeverActive(b: Boundary, t: real)
    requires b.start == 0.0 || b.end == 0.0
    ensures !IsActive(b, t)
  {
  }

  /** With gaps between entries, at most one entry is active at any time. */
  lemma {:induction false} AtMostOneActive(s: seq<Alignment>, t: real, j: nat, k: nat)
    requires Ordered(s)
    requires forall m :: 0 <= m < |s| - 1 ==> s[m].boundary.end < s[m + 1].boundary.start
    requires j < k < |s|
    ensures !(IsActive(s[j].boundary, t) && IsActive(s[k].boundary, t))
  {
    if j + 1 < k {
      OrderedChain(s, j + 1, k);
      assert s[j + 1].boundary.start <= s[j + 1].boundary.end;
    }
  }

  /**
   * Exclusivity needs the gaps: two entries that touch at time t are both
   * active at t.
   */
  lemma TouchingEntriesBothActive(x: Alignment, y: Alignment, t: real)
    requires x.boundary == Boundary(1.0, t, 0.0, (-1, -1)) && y.boundary == Boundary(t, 3.0, 0.0, (-1, -1))
    requires 1.0 <= t <= 3.0
    ensures Ordered([x, y])
    ensures IsActive(x.boundary, t) && IsActive(y.boundary, t)
  {
  }

  /** The value the handler writes into the `playing` attribute of an item. */
  function PlayingValue(b: Boundary, t: real): (v: string)
    ensures v == "true" <==> IsActive(b, t)
    ensures v == "true" || v == "false"
  {
    if IsActive(b, t) then "true" else "false"
  }

  // ---------------------------------------------------------------------------
  // The element

  class AudioDataElement {
    const data: Option<AudioData>
    /** The audio element's `src`. */
    const src: string
    /** The audio element's `currentTime`. */
    var currentTime: real
    /** Every pause / seek / play request made so far, in order. */
    var controls: seq<Control>
    /** The items appended to the alignment slot, in order. */
    var items: seq<AlignmentItem>

    ghost predicate Valid()
      reads this, items
    {
      && (forall j, k :: 0 <= j < k < |items| ==> items[j] != items[k])
      && (data.None? ==> items == [])
      && (data.Some? ==> |items| == |data.value.alignment|
                         && forall k :: 0 <= k < |items| ==> items[k].data == data.value.alignment[k])
    }

    /** One fresh item per alignment entry, in array order. */
    constructor (source: Source)
      ensures Valid()
      ensures data == (if source.FromModel? then Some(source.model) else None)
      ensures src == (if source.FromModel? then source.model.filename else source.url)
      ensures controls == [] && currentTime == 0.0
      ensures forall k :: 0 <= k < |items| ==>
        fresh(items[k]) && items[k].Valid() && items[k].State() == Initial && items[k].playing.None?
    {
      match source {
        case FromModel(m) =>
          data := Some(m);
          src := m.filename;
        case FromUrl(u) =>
          data := None;
          src := u;
      }
      currentTime := 0.0;
      controls := [];
      items := [];
      new;
      if data.Some? {
        var alignment := data.value.alignment;
        for i := 0 to |alignment|
          invariant |items| == i && controls == [] && currentTime == 0.0
          invariant forall k :: 0 <= k < i ==> items[k].data == alignment[k]
          invariant forall j, k :: 0 <= j < k < i ==> items[j] != items[k]
          invariant forall k :: 0 <= k < i ==>
            fresh(items[k]) && items[k].Valid() && items[k].State() == Initial && items[k].playing.None?
        {
          var item := new AlignmentItem(alignment[i]);
          items := items + [item];
        }
      }
    }

    /** The click listener of item `i`. */
    method OnItemClick(i: nat)
      requires data.Some? && i < |data.value.alignment|
      modifies this`currentTime, this`controls
      ensures controls == old(controls) + ClickControls(data.value.alignment, i)
      ensures currentTime == match SeekTarget(data.value.alignment, i)
                             case Some(t) => t
                             case None => old(currentTime)
    {
      var alignment := data.value.alignment;
      controls := controls + [Pause];
      if alignment[i].boundary.start != 0.0 {
        var start := if i > LookBack then alignment[i - LookBack].boundary.end else alignment[i].boundary.start;
        currentTime := start;
        controls := controls + [Seek(start)];
      }
      controls := controls + [Play];
    }

    /** The timeupdate listener: every item is marked playing or not on its own. */
    method OnTimeUpdate()
      requires Valid()
      modifies set k | 0 <= k < |items| :: items[k]
      ensures Valid()
      ensures forall k :: 0 <= k < |items| ==>
        items[k].playing == Some(PlayingValue(items[k].data.boundary, currentTime))
      ensures forall k :: 0 <= k < |items| ==>
        items[k].border == (if old(items[k].playing) == Some(PlayingValue(items[k].data.boundary, currentTime))
                            then old(items[k].border)
                            else if IsActive(items[k].data.boundary, currentTime) then BlueBorder
                            else TransparentBorder)
      ensures forall k :: 0 <= k < |items| ==>
        items[k].dialog == old(items[k].dialog) && items[k].State() == old(items[k].State())
    {
      var t := currentTime;
      for i := 0 to |items|
        invariant Valid()
        invariant forall k :: 0 <= k < i ==>
          items[k].playing == Some(PlayingValue(items[k].data.boundary, t))
        invariant forall k :: 0 <= k < i ==>
          items[k].border == (if old(items[k].playing) == Some(PlayingValue(items[k].data.boundary, t))
                              then old(items[k].border)
                              else if IsActive(items[k].data.boundary, t) then BlueBorder
                              else TransparentBorder)
        invariant forall k :: i <= k < |items| ==>
          items[k].playing == old(items[k].playing) && items[k].border == old(items[k].border)
        invariant forall k :: 0 <= k < |items| ==>
          && items[k].dialog == old(items[k].dialog) && items[k].timers == old(items[k].timers)
          && items[k].hoverTimeout == old(items[k].hoverTimeout)
          && items[k].hoverOutTimeout == old(items[k].hoverOutTimeout)
          && items[k].nextTimerId == old(items[k].nextTimerId)
      {
        var child := items[i];
        if IsActive(child.data.boundary, t) {
          child.SetPlaying("true");
        } else {
          child.SetPlaying("false");
        }
      }
    }
  }
}
