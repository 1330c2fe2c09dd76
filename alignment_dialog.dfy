/**
 * The phoneme detail dialog of components/alignment-dialog/element.js: the
 * word-by-word diff of target and detected phonemes, and the show / hide / hovered
 * flags of the dialog.
 */
module DialogElement {
  import opened Wrappers
  import opened Alignments

  // ---------------------------------------------------------------------------
  // String.prototype.split(" ")

  /** The tokens of `s` between single spaces; two adjacent spaces give an empty token. */
  function Split(s: string): (r: seq<string>)
    ensures |r| >= 1
    ensures forall i :: 0 <= i < |r| ==> ' ' !in r[i]
  {
    if s == [] then [""]
    else
      var rest := Split(s[1..]);
      if s[0] == ' ' then [""] + rest
      else [[s[0]] + rest[0]] + rest[1..]
  }

  /** Array.prototype.join(" "). */
  function Join(ts: seq<string>): string
    requires |ts| >= 1
  {
    if |ts| == 1 then ts[0] else ts[0] + " " + Join(ts[1..])
  }

  /** Joining the tokens with single spaces gives back the string. */
  lemma {:induction false} JoinSplit(s: string)
    ensures Join(Split(s)) == s
  {
    if s != [] {
      var rest := Split(s[1..]);
      JoinSplit(s[1..]);
      if s[0] == ' ' {
        assert Split(s) == [""] + rest;
        assert Split(s)[1..] == rest;
        assert s == [' '] + s[1..];
      } else if |rest| == 1 {
        assert Split(s) == [[s[0]] + rest[0]];
        assert s == [s[0]] + s[1..];
      } else {
        var t := [[s[0]] + rest[0]] + rest[1..];
        assert Split(s) == t && t[1..] == rest[1..];
        assert Join(rest) == rest[0] + " " + Join(rest[1..]);
        assert s == [s[0]] + s[1..];
      }
    }
  }

  /** There is one more token than there are spaces. */
  lemma {:induction false} SplitCount(s: string)
    ensures |Split(s)| == multiset(s)[' '] + 1
  {
    if s != [] {
      SplitCount(s[1..]);
      assert s == [s[0]] + s[1..];
      assert multiset(s) == multiset([s[0]]) + multiset(s[1..]);
    }
  }

  /** Splitting a string with a space-free head continues the first token. */
  lemma {:induction false} SplitSpaceFreePrefix(a: string, b: string)
    requires ' ' !in a
    ensures var r := Split(b); Split(a + b) == [a + r[0]] + r[1..]
  {
    if a != [] {
      assert (a + b)[1..] == a[1..] + b;
      SplitSpaceFreePrefix(a[1..], b);
      var r, rest := Split(b), Split(a[1..] + b);
      assert rest[0] == a[1..] + r[0] && rest[1..] == r[1..];
      assert a[0] != ' ' && (a + b)[0] == a[0];
      assert Split(a + b) == [[a[0]] + rest[0]] + rest[1..];
      assert [a[0]] + (a[1..] + r[0]) == a + r[0];
    } else {
      var r := Split(b);
      assert a + b == b && a + r[0] == r[0];
      assert r == [r[0]] + r[1..];
    }
  }

  /** Splitting the join of space-free tokens gives back the tokens. */
  lemma {:induction false} SplitJoin(ts: seq<string>)
    requires |ts| >= 1
    requires forall i :: 0 <= i < |ts| ==> ' ' !in ts[i]
    ensures Split(Join(ts)) == ts
  {
    if |ts| == 1 {
      SplitSpaceFreePrefix(ts[0], "");
      assert ts[0] + "" == ts[0];
    } else {
      SplitJoin(ts[1..]);
      var tail := " " + Join(ts[1..]);
      assert ts[0] + " " + Join(ts[1..]) == ts[0] + tail;
      SplitSpaceFreePrefix(ts[0], tail);
      assert tail[0] == ' ' && tail[1..] == Join(ts[1..]);
      assert Split(tail) == [""] + Split(tail[1..]);
      var st := Split(tail);
      assert st[0] == "" && st[1..] == ts[1..];
      assert Split(ts[0] + tail) == [ts[0] + st[0]] + st[1..];
      assert ts[0] + st[0] == ts[0];
      assert ts == [ts[0]] + ts[1..];
    }
  }

  // ---------------------------------------------------------------------------
  // setAlignmentContent: the token diff

  /** A span in one of the two rows: its text, its width in `ch` and whether it has class `error`. */
  datatype Span = Span(text: string, widthCh: nat, error: bool)

  /** What the dialog content receives: a row of spans, or the dictionary link. */
  datatype Block = Row(spans: seq<Span>) | Link(href: string)

  datatype DiffError = LengthMismatch

  predicate TokenCountsMatch(p: Phoneme) {
    |Split(p.target)| == |Split(p.detected)|
  }

  /** The dialog constructor throws: phoneme data whose token counts differ. */
  predicate ConstructorThrows(data: Alignment) {
    data.phoneme.Some? && !TokenCountsMatch(data.phoneme.value)
  }

  /**
   * The first `n` columns of the diff: the target and detected tokens, the
   * same width in a column (that of the longer token), and `error` on the
   * detected span exactly where the tokens differ.
   */
  ghost predicate ColumnsAgree(target: seq<string>, detected: seq<string>, ts: seq<Span>, ds: seq<Span>, n: nat)
    requires n <= |target| && n <= |detected| && n <= |ts| && n <= |ds|
  {
    forall i :: 0 <= i < n ==>
      && ts[i].text == target[i] && ds[i].text == detected[i]
      && ts[i].widthCh == ds[i].widthCh
      && ts[i].widthCh >= |target[i]| && ts[i].widthCh >= |detected[i]|
      && (ts[i].widthCh == |target[i]| || ts[i].widthCh == |detected[i]|)
      && !ts[i].error
      && (ds[i].error <==> target[i] != detected[i])
  }

  /** The two rows of a well-formed diff of `p`: one column per token. */
  ghost predicate DiffColumns(p: Phoneme, ts: seq<Span>, ds: seq<Span>) {
    var target, detected := Split(p.target), Split(p.detected);
    && |target| == |detected| && |ts| == |target| && |ds| == |target|
    && ColumnsAgree(target, detected, ts, ds, |target|)
  }

  /**
   * The two rows setAlignmentContent builds: one target span and one detected
   * span per token. Fails when the token counts differ.
   */
  method BuildColumns(p: Phoneme) returns (r: Result<(seq<Span>, seq<Span>), DiffError>)
    ensures r.Err? <==> !TokenCountsMatch(p)
    ensures r.Ok? ==> DiffColumns(p, r.value.0, r.value.1)
  {
    var target := Split(p.target);
    var detected := Split(p.detected);
    if |target| != |detected| {
      return Err(LengthMismatch);
    }
    var ts: seq<Span> := [];
    var ds: seq<Span> := [];
    for i := 0 to |target|
      invariant |ts| == i && |ds| == i
      invariant ColumnsAgree(target, detected, ts, ds, i)
    {
      var maxWordLength := if |target[i]| >= |detected[i]| then |target[i]| else |detected[i]|;
      ts := ts + [Span(target[i], maxWordLength, false)];
      ds := ds + [Span(detected[i], maxWordLength, target[i] != detected[i])];
    }
    return Ok((ts, ds));
  }

  // ---------------------------------------------------------------------------
  // The show / hide / hovered flags

  /**
   * The dialog's observable state: the `show` and `hide` classes of the
   * dialog element, the `_hovered` field, and the number of `mouseleave`
   * listeners onHoverIntent has attached to the dialog content.
   */
  datatype DialogFlags = DialogFlags(showClass: bool, hideClass: bool, hovered: bool, leaveListeners: nat)

  const Fresh: DialogFlags := DialogFlags(false, false, false, 0)

  /** showModal: adds `show` when the entry has phoneme data. */
  function ShowModalStep(f: DialogFlags, hasPhoneme: bool): (r: DialogFlags)
    ensures r.showClass <==> f.showClass || hasPhoneme
    ensures r.hideClass == f.hideClass && r.hovered == f.hovered && r.leaveListeners == f.leaveListeners
  {
    if !f.showClass && hasPhoneme then f.(showClass := true) else f
  }

  /** closeModal: removes `show`, adds `hide`, clears `_hovered`; listeners stay attached. */
  function CloseModalStep(f: DialogFlags): (r: DialogFlags)
    ensures !r.showClass && r.hideClass && !r.hovered
    ensures r.leaveListeners == f.leaveListeners
  {
    f.(showClass := false, hideClass := true, hovered := false)
  }

  /** onHoverIntent: marks the dialog hovered and attaches one more leave listener. */
  function HoverIntentStep(f: DialogFlags): (r: DialogFlags)
    ensures r.hovered && r.leaveListeners == f.leaveListeners + 1
    ensures r.showClass == f.showClass && r.hideClass == f.hideClass
  {
    f.(hovered := true, leaveListeners := f.leaveListeners + 1)
  }

  /** The pointer leaves the dialog content: each attached listener calls closeModal. */
  function BodyLeaveStep(f: DialogFlags): (r: DialogFlags)
    ensures f.leaveListeners > 0 ==> r == CloseModalStep(f)
    ensures f.leaveListeners == 0 ==> r == f
  {
    if f.leaveListeners > 0 then CloseModalStep(f) else f
  }

  /** The flags right after construction: shown at once when there is phoneme data. */
  function InitialFlags(hasPhoneme: bool): (r: DialogFlags)
    ensures r.showClass == hasPhoneme && !r.hideClass && !r.hovered && r.leaveListeners == 0
  {
    ShowModalStep(Fresh, hasPhoneme)
  }

  /** showModal is idempotent. */
  lemma ShowModalIdempotent(f: DialogFlags, hasPhoneme: bool)
    ensures ShowModalStep(ShowModalStep(f, hasPhoneme), hasPhoneme) == ShowModalStep(f, hasPhoneme)
  {
  }

  /** closeModal is idempotent, so several leave listeners act as one. */
  lemma CloseModalIdempotent(f: DialogFlags)
    ensures CloseModalStep(CloseModalStep(f)) == CloseModalStep(f)
  {
  }

  // ---------------------------------------------------------------------------
  // The element

  /** The dialog element of one alignment entry. */
  class AlignmentDialog {
    const data: Alignment
    var showClass: bool
    var hideClass: bool
    var hovered: bool
    /** `mouseleave` listeners attached to the dialog content by onHoverIntent. */
    var leaveListeners: nat
    /** Whether the content's `onmouseover` handler is onHoverIntent. */
    var hoverIntentSet: bool
    /** What has been appended to the dialog content. */
    var content: seq<Block>

    ghost predicate Valid()
      reads this
    {
      hoverIntentSet <==> content != []
    }

    function Flags(): DialogFlags
      reads this
    {
      DialogFlags(showClass, hideClass, hovered, leaveListeners)
    }

    /**
     * With phoneme data, fill the content and show the dialog at once. When
     * the token counts differ, setAlignmentContent throws out of the
     * constructor: the object is left as it was before the throw, empty and
     * not shown, and the caller never receives it.
     */
    constructor (data: Alignment)
      ensures Valid() && this.data == data
      ensures ConstructorThrows(data) ==> Flags() == Fresh && content == [] && !hoverIntentSet
      ensures !ConstructorThrows(data) ==> Flags() == InitialFlags(data.phoneme.Some?)
      ensures !ConstructorThrows(data) ==> (hoverIntentSet <==> data.phoneme.Some?)
      ensures data.phoneme.Some? && !ConstructorThrows(data) ==>
        && |content| == 3 && content[0].Row? && content[1].Row? && content[2] == Link(data.link)
        && DiffColumns(data.phoneme.value, content[0].spans, content[1].spans)
      ensures data.phoneme.None? ==> content == []
    {
      this.data := data;
      showClass, hideClass, hovered, leaveListeners := false, false, false, 0;
      hoverIntentSet := false;
      content := [];
      new;
      if data.phoneme.Some? {
        var r := SetAlignmentContent(data.phoneme.value);
        if r.Err? {
          return;
        }
        ShowModal();
      }
    }

    /**
     * Append the target row, the detected row and the link; on a token-count
     * mismatch throw before anything is appended.
     */
    method SetAlignmentContent(p: Phoneme) returns (r: Result<(), DiffError>)
      requires Valid()
      modifies this`content, this`hoverIntentSet
      ensures Valid()
      ensures r.Err? <==> !TokenCountsMatch(p)
      ensures r.Err? ==> content == old(content) && hoverIntentSet == old(hoverIntentSet)
      ensures r.Ok? ==> |content| == |old(content)| + 3 && content[..|old(content)|] == old(content)
      ensures r.Ok? ==> content[|content| - 1] == Link(data.link) && hoverIntentSet
      ensures r.Ok? ==> content[|old(content)|].Row? && content[|old(content)| + 1].Row?
      ensures r.Ok? ==> DiffColumns(p, content[|old(content)|].spans, content[|old(content)| + 1].spans)
    {
      var columns := BuildColumns(p);
      if columns.Err? {
        return Err(columns.error);
      }
      var (ts, ds) := columns.value;
      content := content + [Row(ts), Row(ds), Link(data.link)];
      hoverIntentSet := true;
      return Ok(());
    }

    method ShowModal()
      modifies this`showClass
      ensures Flags() == ShowModalStep(old(Flags()), data.phoneme.Some?)
    {
      if !showClass && data.phoneme.Some? {
        showClass := true;
      }
    }

    method CloseModal()
      modifies this`showClass, this`hideClass, this`hovered
      ensures Flags() == CloseModalStep(old(Flags()))
    {
      showClass := false;
      hideClass := true;
      hovered := false;
      // removeEventListener is called on the element itself with a function that
      // was never added, so no listener on the content is detached.
    }

    method OnHoverIntent()
      modifies this`hovered, this`leaveListeners
      ensures Flags() == HoverIntentStep(old(Flags()))
    {
      hovered := true;
      leaveListeners := leaveListeners + 1;
    }

    /** `mouseover` on the dialog content. */
    method OnContentMouseOver()
      modifies this`hovered, this`leaveListeners
      ensures Flags() == if hoverIntentSet then HoverIntentStep(old(Flags())) else old(Flags())
    {
      if hoverIntentSet {
        OnHoverIntent();
      }
    }

    /** `mouseleave` on the dialog content: every attached listener runs closeModal. */
    method OnContentMouseLeave()
      modifies this`showClass, this`hideClass, this`hovered
      ensures Flags() == BodyLeaveStep(old(Flags()))
    {
      var k := 0;
      while k < leaveListeners
        invariant 0 <= k <= leaveListeners
        invariant k > 0 ==> Flags() == CloseModalStep(old(Flags()))
        invariant k == 0 ==> Flags() == old(Flags())
      {
        CloseModal();
        k := k + 1;
      }
    }
  }
}
