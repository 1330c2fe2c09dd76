/**
 * The alignment normalisation of models/AudioDataModel.js: a raw
 * WhisperX-style record becomes an ordered sequence of alignment entries,
 * with at most one non-word entry trimmed from each end.
 */
module Alignments {
  import opened Wrappers

  /** One raw alignment record as the recognizer delivers it. */
  datatype RawEntry = RawEntry(
    word: string,
    start: real,
    end: real,
    prominenceStrength: real,
    boundaryStrength: real,
    score: Option<real>,
    startInd: Option<int>,
    endInd: Option<int>,
    g2pWord: Option<string>,
    canonicalPhnsAlign: Option<string>,
    recognizedPhnsAlign: Option<string>,
    phnErrorRate: Option<real>,
    nErrPhns: Option<int>)

  /** The raw record of one audio clip. */
  datatype WhisperData = WhisperData(wav: string, whisperxText: string, whisperxAlignment: seq<RawEntry>)

  /** Time interval of an entry; `idx` holds the token indices, -1 when absent. */
  datatype Boundary = Boundary(start: real, end: real, strength: real, idx: (int, int))

  /** Phoneme-level annotation, present only when all five raw fields are. */
  datatype Phoneme = Phoneme(g2p: string, target: string, detected: string, error: real, numErrors: int)

  /** A normalised alignment entry. */
  datatype Alignment = Alignment(
    word: string,
    link: string,
    boundary: Boundary,
    prominence: real,
    score: Option<real>,
    phoneme: Option<Phoneme>)

  /** The value held by an AudioDataModel after construction. */
  datatype AudioData = AudioData(filename: string, text: string, alignment: seq<Alignment>)

  const PauseWord: string := "pau"
  const SilenceWord: string := "sil"
  const LinkPrefix: string := "https://www.wordreference.com/definition/"

  /** The three kinds of entry the word text distinguishes. */
  datatype Kind = WordKind | PauseKind | SilenceKind

  /** The entry is the pause marker. */
  predicate IsPause(a: Alignment): (b: bool)
    ensures b ==> a.word != SilenceWord
  {
    a.word == PauseWord
  }

  /** The entry is neither a pause nor silence. */
  predicate IsWord(a: Alignment): (b: bool)
    ensures b ==> !IsPause(a)
    ensures !b ==> a.word == PauseWord || a.word == SilenceWord
  {
    !IsPause(a) && a.word != SilenceWord
  }

  /** Every entry is exactly one of word, pause and silence. */
  function KindOf(a: Alignment): (k: Kind)
    ensures k == PauseKind <==> IsPause(a)
    ensures k == WordKind <==> IsWord(a)
    ensures k == SilenceKind <==> a.word == SilenceWord
  {
    if a.word == PauseWord then PauseKind
    else if a.word == SilenceWord then SilenceKind
    else WordKind
  }

  // ---------------------------------------------------------------------------
  // The dictionary link

  /** The characters the link keeps: the class [a-zA-Z ]. */
  predicate IsLinkChar(c: char) {
    ('a' <= c <= 'z') || ('A' <= c <= 'Z') || c == ' '
  }

  predicate AllLinkChars(s: string) {
    forall i :: 0 <= i < |s| ==> IsLinkChar(s[i])
  }

  /** The word with every character outside [a-zA-Z ] removed. */
  function KeepLinkChars(s: string): (r: string)
    ensures |r| <= |s|
    ensures AllLinkChars(r)
    ensures AllLinkChars(s) ==> r == s
  {
    if s == [] then []
    else (if IsLinkChar(s[0]) then [s[0]] else []) + KeepLinkChars(s[1..])
  }

  /** Filtering works character by character, so it keeps the order of what it keeps. */
  lemma {:induction false} KeepLinkCharsAppend(a: string, b: string)
    ensures KeepLinkChars(a + b) == KeepLinkChars(a) + KeepLinkChars(b)
  {
    if a == [] {
      assert a + b == b;
    } else {
      assert (a + b)[1..] == a[1..] + b;
      KeepLinkCharsAppend(a[1..], b);
    }
  }

  /** Each character of class [a-zA-Z ] is kept as often as it occurs; every other one is dropped. */
  lemma {:induction false} KeepLinkCharsCounts(s: string, c: char)
    ensures multiset(KeepLinkChars(s))[c] == if IsLinkChar(c) then multiset(s)[c] else 0
  {
    if s != [] {
      KeepLinkCharsCounts(s[1..], c);
      assert s == [s[0]] + s[1..];
      assert multiset(s) == multiset([s[0]]) + multiset(s[1..]);
    }
  }

  /** Filtering twice is filtering once. */
  lemma KeepLinkCharsIdempotent(s: string)
    ensures KeepLinkChars(KeepLinkChars(s)) == KeepLinkChars(s)
  {
  }

  // ---------------------------------------------------------------------------
  // createAlignment

  predicate HasAllPhonemeFields(d: RawEntry) {
    && d.g2pWord.Some?
    && d.canonicalPhnsAlign.Some?
    && d.recognizedPhnsAlign.Some?
    && d.phnErrorRate.Some?
    && d.nErrPhns.Some?
  }

  /** The boundary index used for an absent token index. */
  function IndexOr(i: Option<int>): int {
    match i
    case Some(v) => v
    case None => -1
  }

  /** One raw record mapped to an alignment entry. */
  function CreateAlignment(d: RawEntry): (r: Alignment)
    // copied fields
    ensures r.word == d.word && r.prominence == d.prominenceStrength && r.score == d.score
    ensures r.boundary.start == d.start && r.boundary.end == d.end && r.boundary.strength == d.boundaryStrength
    // sentinel -1 for a missing index
    ensures d.startInd.None? ==> r.boundary.idx.0 == -1
    ensures d.endInd.None? ==> r.boundary.idx.1 == -1
    ensures d.startInd.Some? ==> r.boundary.idx.0 == d.startInd.value
    ensures d.endInd.Some? ==> r.boundary.idx.1 == d.endInd.value
    // all-or-nothing phoneme annotation
    ensures r.phoneme.Some? <==> HasAllPhonemeFields(d)
    ensures r.phoneme.Some? ==>
      && r.phoneme.value.g2p == d.g2pWord.value
      && r.phoneme.value.target == d.canonicalPhnsAlign.value
      && r.phoneme.value.detected == d.recognizedPhnsAlign.value
      && r.phoneme.value.error == d.phnErrorRate.value
      && r.phoneme.value.numErrors == d.nErrPhns.value
    // the link: fixed prefix, then only letters and spaces; a clean word is kept as it is
    ensures |LinkPrefix| <= |r.link| && r.link[..|LinkPrefix|] == LinkPrefix
    ensures AllLinkChars(r.link[|LinkPrefix|..])
    ensures AllLinkChars(d.word) ==> r.link == LinkPrefix + d.word
    ensures r.link == LinkPrefix + KeepLinkChars(d.word)
  {
    var boundary := Boundary(d.start, d.end, d.boundaryStrength, (IndexOr(d.startInd), IndexOr(d.endInd)));
    var phoneme :=
      if HasAllPhonemeFields(d) then
        Some(Phoneme(d.g2pWord.value, d.canonicalPhnsAlign.value, d.recognizedPhnsAlign.value,
                     d.phnErrorRate.value, d.nErrPhns.value))
      else None;
    var link := LinkPrefix + KeepLinkChars(d.word);
    assert link[|LinkPrefix|..] == KeepLinkChars(d.word);
    Alignment(d.word, link, boundary, d.prominenceStrength, d.score, phoneme)
  }

  /** The entry's kind is decided by the raw word alone. */
  lemma CreateAlignmentKind(d: RawEntry)
    ensures IsPause(CreateAlignment(d)) <==> d.word == PauseWord
    ensures IsWord(CreateAlignment(d)) <==> d.word != PauseWord && d.word != SilenceWord
  {
  }

  /** `Array.prototype.map` with createAlignment. */
  function MapEntries(raw: seq<RawEntry>): (r: seq<Alignment>)
    ensures |r| == |raw|
    ensures forall i :: 0 <= i < |raw| ==> r[i] == CreateAlignment(raw[i])
  {
    seq(|raw|, i requires 0 <= i < |raw| => CreateAlignment(raw[i]))
  }

  // ---------------------------------------------------------------------------
  // The one-shot trim

  /** Entries removed from the front: one when the first entry is not a word. */
  function FrontDrop(s: seq<Alignment>): nat {
    if |s| > 0 && !IsWord(s[0]) then 1 else 0
  }

  /** Entries removed from the back: one when the last entry left after the front trim is not a word. */
  function BackDrop(s: seq<Alignment>): nat {
    if |s| > FrontDrop(s) && !IsWord(s[|s| - 1]) then 1 else 0
  }

  /**
   * The trim of the constructor, with the length re-checked before the last
   * entry is read (see TrimAsWritten for the code as it stands).
   */
  function TrimEdges(s: seq<Alignment>): (r: seq<Alignment>)
    ensures |r| == |s| - FrontDrop(s) - BackDrop(s)
    ensures forall i :: 0 <= i < |r| ==> r[i] == s[i + FrontDrop(s)]
  {
    var t := if |s| > 0 && !IsWord(s[0]) then s[1..] else s;
    if |t| > 0 && !IsWord(t[|t| - 1]) then t[..|t| - 1] else t
  }

  /** Only non-word entries are ever removed, and at most one from each end. */
  lemma TrimDropsOnlyEdgeNonWords(s: seq<Alignment>)
    ensures FrontDrop(s) <= 1 && BackDrop(s) <= 1
    ensures |s| - 2 <= |TrimEdges(s)| <= |s|
    ensures forall i :: 0 <= i < FrontDrop(s) ==> !IsWord(s[i])
    ensures forall i :: |s| - BackDrop(s) <= i < |s| ==> !IsWord(s[i])
  {
  }

  /**
   * When neither end has two non-words in a row, a non-empty trimmed
   * sequence begins and ends with a word.
   */
  lemma TrimEndsAreWords(s: seq<Alignment>)
    requires |s| >= 2 && !IsWord(s[0]) ==> IsWord(s[1])
    requires |s| >= 2 && !IsWord(s[|s| - 1]) ==> IsWord(s[|s| - 2])
    ensures var r := TrimEdges(s); |r| > 0 ==> IsWord(r[0]) && IsWord(r[|r| - 1])
  {
  }

  /** The trim is not repeated: two leading pauses lose only one. */
  lemma TrimNotChained(p: Alignment, w: Alignment, q: Alignment)
    requires IsPause(p) && IsWord(w) && q.word == SilenceWord
    ensures TrimEdges([p, p, w, q, q]) == [p, w, q]
  {
    assert TrimEdges([p, p, w, q, q]) == [p, p, w, q, q][1..4];
  }

  /** A sequence that already begins and ends with words is left alone. */
  lemma TrimKeepsWordEdged(s: seq<Alignment>)
    requires |s| > 0 ==> IsWord(s[0]) && IsWord(s[|s| - 1])
    ensures TrimEdges(s) == s
  {
  }

  /** The error the JavaScript engine raises when reading `.word` of undefined. */
  datatype TrimError = ReadOfUndefined

  /**
   * The trim exactly as the constructor writes it: after `shift` the array
   * may be empty, and then `alignment[length - 1]` is undefined and
   * `isWord` fails on it.
   */
  function TrimAsWritten(s: seq<Alignment>): (r: Result<seq<Alignment>, TrimError>)
    ensures r.Err? <==> |s| == 1 && !IsWord(s[0])
    ensures r.Ok? ==> r.value == TrimEdges(s)
  {
    if |s| == 0 then Ok(s)
    else
      var t := if !IsWord(s[0]) then s[1..] else s;
      if |t| == 0 then Err(ReadOfUndefined)
      else if !IsWord(t[|t| - 1]) then Ok(t[..|t| - 1])
      else Ok(t)
  }

  /** A clip whose only entry is a pause makes the constructor as written throw. */
  lemma SinglePauseThrows(p: Alignment)
    requires IsPause(p)
    ensures TrimAsWritten([p]).Err?
    ensures TrimEdges([p]) == []
  {
  }

  // ---------------------------------------------------------------------------
  // The model object

  /** The normalised model of one clip. */
  class AudioDataModel {
    var filename: string
    var text: string
    var alignment: seq<Alignment>

    /** Map every raw record, then trim at most one non-word entry from each end. */
    constructor (data: WhisperData)
      ensures filename == data.wav && text == data.whisperxText
      ensures alignment == TrimEdges(MapEntries(data.whisperxAlignment))
      ensures Data() == Normalize(data)
    {
      filename := data.wav;
      text := data.whisperxText;
      alignment := MapEntries(data.whisperxAlignment);
      new;
      if |alignment| > 0 {
        if !IsWord(alignment[0]) {
          alignment := alignment[1..];   // shift
        }
        if |alignment| > 0 && !IsWord(alignment[|alignment| - 1]) {
          alignment := alignment[..|alignment| - 1];   // pop
        }
      }
    }

    /** The model's fields as a value. */
    function Data(): AudioData
      reads this
    {
      AudioData(filename, text, alignment)
    }
  }

  /** Normalisation as a function of the raw record. */
  function Normalize(data: WhisperData): (r: AudioData)
    ensures |r.alignment| == |data.whisperxAlignment| - FrontDrop(MapEntries(data.whisperxAlignment))
                                                       - BackDrop(MapEntries(data.whisperxAlignment))
    ensures forall i :: 0 <= i < |r.alignment| ==>
      r.alignment[i] == CreateAlignment(data.whisperxAlignment[i + FrontDrop(MapEntries(data.whisperxAlignment))])
  {
    AudioData(data.wav, data.whisperxText, TrimEdges(MapEntries(data.whisperxAlignment)))
  }
}
