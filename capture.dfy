/** Stroke capture and character segmentation: the page's mutable state as one object,
    driven by pointer events, the inactivity timer, the clear button and the arrow keys,
    together with the two exports (JSON records and the PNG grid). */
module Capture {
  import opened TimeoutText
  import opened GridLayout

  datatype Option<T> = None | Some(value: T)

  /** Side of a character thumbnail in pixels (charSize). */
  const ThumbSize: nat := 80

  /** One pointer-down-to-pointer-up gesture. startTime and endTime are absolute
      milliseconds (endTime stays 0 until pointer-up); t[k] is the time of sample k
      relative to startTime, and (x[k], y[k]) its surface coordinates. */
  datatype Stroke = Stroke(startTime: nat, endTime: nat, t: seq<int>, x: seq<int>, y: seq<int>)

  /** A stroke as it appears in a finalized character: the stroke and its position. */
  datatype StrokeRecord =
    StrokeRecord(strokeIndex: nat, startTime: nat, endTime: nat, t: seq<int>, x: seq<int>, y: seq<int>)

  /** One finalized character, the element of the exported JSON array. */
  datatype Character =
    Character(characterIndex: nat, characterStartTime: nat, characterFinalizeTime: nat,
              strokes: seq<StrokeRecord>)

  /** The result of the save-json button. */
  datatype JsonExport = NoData | Json(characters: seq<Character>)

  /** The result of the save-png button: the canvas size and where each thumbnail is drawn. */
  datatype PngExport = NoImage | Png(width: nat, height: nat, cells: seq<Origin>)

  /** The stroke-to-record map of finalizeCharacter: each pending stroke tagged with its position. */
  function Numbered(strokes: seq<Stroke>): (r: seq<StrokeRecord>)
    ensures |r| == |strokes|
    ensures forall k :: 0 <= k < |r| ==> r[k].strokeIndex == k
  {
    seq(|strokes|, k requires 0 <= k < |strokes| =>
      StrokeRecord(k, strokes[k].startTime, strokes[k].endTime, strokes[k].t, strokes[k].x, strokes[k].y))
  }

  /** The strokes of a character with their indices dropped. */
  function Unnumbered(records: seq<StrokeRecord>): (r: seq<Stroke>)
    ensures |r| == |records|
  {
    seq(|records|, k requires 0 <= k < |records| =>
      Stroke(records[k].startTime, records[k].endTime, records[k].t, records[k].x, records[k].y))
  }

  /** Numbering keeps every stroke's data: dropping the indices gives back the strokes. */
  lemma UnnumberedNumbered(strokes: seq<Stroke>)
    ensures Unnumbered(Numbered(strokes)) == strokes
  {
  }

  /** Records numbered 0..k-1 are exactly the numbering of their strokes. */
  lemma NumberedUnnumbered(records: seq<StrokeRecord>)
    requires forall k :: 0 <= k < |records| ==> records[k].strokeIndex == k
    ensures Numbered(Unnumbered(records)) == records
  {
  }

  predicate Ascending(t: seq<int>) {
    forall i, j :: 0 <= i <= j < |t| ==> t[i] <= t[j]
  }

  /** The point arrays of a stroke: parallel, seeded with t = 0, never going back in time. */
  predicate PointsOK(s: Stroke) {
    |s.t| == |s.x| == |s.y| >= 1 && s.t[0] == 0 && Ascending(s.t)
  }

  /** A stroke still being drawn, none of whose samples lies after `clock`. */
  predicate OpenStroke(s: Stroke, clock: nat) {
    PointsOK(s) && s.startTime + s.t[|s.t| - 1] <= clock
  }

  /** A stroke kept on pointer-up: at least two points, closed after its last sample. */
  predicate ClosedStroke(s: Stroke) {
    PointsOK(s) && |s.x| > 1 && s.startTime + s.t[|s.t| - 1] <= s.endTime
  }

  /** Each stroke starts no earlier than the previous one ended. */
  predicate InTimeOrder(ss: seq<Stroke>) {
    forall k :: 0 <= k < |ss| - 1 ==> ss[k].endTime <= ss[k + 1].startTime
  }

  /** The strokes pending for the current character, none closed after `clock`. */
  predicate PendingOK(ss: seq<Stroke>, clock: nat) {
    (forall k :: 0 <= k < |ss| ==> ClosedStroke(ss[k]) && ss[k].endTime <= clock) && InTimeOrder(ss)
  }

  /** Character c at position i of the sentence was finalized from the strokes ss: they
      are closed, in time order and none closed after the finalize time; the character
      holds them numbered in order and started when the first of them did. */
  predicate CharacterOK(c: Character, i: nat, ss: seq<Stroke>) {
    && ss != []
    && PendingOK(ss, c.characterFinalizeTime)
    && c.characterIndex == i
    && c.characterStartTime == ss[0].startTime
    && c.strokes == Numbered(ss)
  }

  /** The sentence and the thumbnails shown for it: one thumbnail per character, rendered
      from that character's strokes; character i has index i; each character was finalized
      no later than the next one started. */
  predicate SentenceOK(s: seq<Character>, thumbs: seq<seq<Stroke>>)
    decreases |s|
  {
    && |s| == |thumbs|
    && (s != [] ==>
          var n := |s| - 1;
          && SentenceOK(s[..n], thumbs[..n])
          && CharacterOK(s[n], n, thumbs[n])
          && (n > 0 ==> s[n - 1].characterFinalizeTime <= s[n].characterStartTime))
  }

  /** The finalize time of the last character, 0 for an empty sentence. */
  function LastFinalize(s: seq<Character>): nat {
    if s == [] then 0 else s[|s| - 1].characterFinalizeTime
  }

  /** The capture state between characters: an open stroke exactly while drawing and then
      no timer; the pending strokes closed and in time order, the first one giving the
      character's start time; a pending stroke always followed by an armed timer once the
      pointer is up; nothing later than the clock and nothing before the last finalize. */
  predicate CaptureOK(drawing: bool, armed: bool, current: Option<Stroke>, pending: seq<Stroke>,
                      start: Option<nat>, lastFinalize: nat, clock: nat)
  {
    && (drawing ==> current.Some? && OpenStroke(current.value, clock) && !armed)
    && PendingOK(pending, clock)
    && (pending != [] ==> start == Some(pending[0].startTime) && lastFinalize <= pending[0].startTime)
    && (drawing && pending == [] ==>
          start == Some(current.value.startTime) && lastFinalize <= current.value.startTime)
    && (drawing && pending != [] ==> pending[|pending| - 1].endTime <= current.value.startTime)
    && (!drawing && pending != [] ==> armed)
    && lastFinalize <= clock
  }

  class Session {
    var isDrawing: bool
    /** Whether an inactivity timer is scheduled (timeoutId names a live timer). */
    var timerArmed: bool
    /** When the timer was armed, and the setting's text it read then: its delay is
        TimeoutDuration(armedText), fixed at arming time. */
    var armedAt: nat
    var armedText: string
    var finalSentenceData: seq<Character>
    var strokesForCurrentChar: seq<Stroke>
    /** The stroke object last started; None for the empty object `{}`. */
    var currentStrokeData: Option<Stroke>
    var characterStartTime: Option<nat>
    /** The thumbnail canvases in the sentence container, each given by the strokes it was rendered from. */
    var thumbnails: seq<seq<Stroke>>
    /** The text of the timeout input. */
    var timeoutInput: string
    /** The latest performance.now() reading; readings never decrease. */
    ghost var clock: nat

    /** The capture invariant, the sentence invariant, and: once the pointer is up with strokes
        pending, the timer was armed no earlier than the last of them ended, so a character is
        finalized no earlier than the timeout after its last stroke. */
    ghost predicate Valid()
      reads this
    {
      && CaptureOK(isDrawing, timerArmed, currentStrokeData, strokesForCurrentChar,
                   characterStartTime, LastFinalize(finalSentenceData), clock)
      && SentenceOK(finalSentenceData, thumbnails)
      && (!isDrawing && strokesForCurrentChar != [] ==>
            strokesForCurrentChar[|strokesForCurrentChar| - 1].endTime <= armedAt)
    }

    /** The page after loading, with the timeout input holding `initialTimeout`. */
    constructor (initialTimeout: string)
      ensures Valid()
      ensures !isDrawing && !timerArmed && currentStrokeData == None && characterStartTime == None
      ensures finalSentenceData == [] && strokesForCurrentChar == [] && thumbnails == []
      ensures timeoutInput == initialTimeout && clock == 0
    {
      isDrawing, timerArmed := false, false;
      armedAt, armedText := 0, initialTimeout;
      finalSentenceData, strokesForCurrentChar, thumbnails := [], [], [];
      currentStrokeData, characterStartTime := None, None;
      timeoutInput := initialTimeout;
      clock := 0;
    }

    /** Pointer-down at (px, py) at time `now`: cancel the timer, open a new stroke seeded
        with t = 0, start a new character if none is pending. */
    method StartDrawing(now: nat, px: int, py: int)
      requires Valid() && clock <= now
      modifies this
      ensures Valid() && clock == now
      ensures isDrawing && !timerArmed
      ensures currentStrokeData == Some(Stroke(now, 0, [0], [px], [py]))
      ensures characterStartTime ==
        if old(strokesForCurrentChar) == [] then Some(now) else old(characterStartTime)
      ensures strokesForCurrentChar == old(strokesForCurrentChar)
      ensures finalSentenceData == old(finalSentenceData) && thumbnails == old(thumbnails)
      ensures timeoutInput == old(timeoutInput)
      ensures armedAt == old(armedAt) && armedText == old(armedText)
    {
      timerArmed := false;
      isDrawing := true;
      clock := now;
      if strokesForCurrentChar == [] {
        characterStartTime := Some(now);
      }
      currentStrokeData := Some(Stroke(now, 0, [0], [px], [py]));
      StartKeepsCapture(old(isDrawing), old(timerArmed), old(currentStrokeData), strokesForCurrentChar,
                        old(characterStartTime), LastFinalize(finalSentenceData), old(clock), now, px, py,
                        currentStrokeData, characterStartTime);
    }

    /** Pointer-move to (px, py) at time `now`: append one sample to the open stroke. */
    method Draw(now: nat, px: int, py: int)
      requires Valid() && clock <= now
      modifies this
      ensures Valid()
      ensures !old(isDrawing) ==> unchanged(this)
      ensures old(isDrawing) ==> clock == now && isDrawing && old(currentStrokeData).Some?
      ensures old(isDrawing) ==>
        var s := old(currentStrokeData).value;
        currentStrokeData == Some(s.(t := s.t + [now - s.startTime], x := s.x + [px], y := s.y + [py]))
      ensures isDrawing == old(isDrawing) && timerArmed == old(timerArmed)
      ensures strokesForCurrentChar == old(strokesForCurrentChar) && characterStartTime == old(characterStartTime)
      ensures finalSentenceData == old(finalSentenceData) && thumbnails == old(thumbnails)
      ensures timeoutInput == old(timeoutInput)
      ensures armedAt == old(armedAt) && armedText == old(armedText)
    {
      if !isDrawing {
        return;
      }
      var s := currentStrokeData.value;
      var elapsed := now - s.startTime;
      currentStrokeData := Some(s.(t := s.t + [elapsed], x := s.x + [px], y := s.y + [py]));
      clock := now;
      DrawKeepsCapture(timerArmed, s, strokesForCurrentChar, characterStartTime,
                       LastFinalize(finalSentenceData), old(clock), now, px, py, currentStrokeData);
    }

    /** Pointer-up (or pointer leaving the surface) at time `now`: close the stroke, keep
        it only if it has more than one point, and arm the timer with the setting's duration
        whether or not the stroke was kept. */
    method StopDrawing(now: nat)
      requires Valid() && clock <= now
      modifies this
      ensures Valid()
      ensures !old(isDrawing) ==> unchanged(this)
      ensures old(isDrawing) ==> !isDrawing && clock == now && old(currentStrokeData).Some?
      ensures old(isDrawing) ==>
        var s := old(currentStrokeData).value.(endTime := now);
        && currentStrokeData == Some(s)
        && s.startTime <= s.endTime
        && strokesForCurrentChar ==
             (if |s.x| > 1 then old(strokesForCurrentChar) + [s] else old(strokesForCurrentChar))
        && timerArmed && armedAt == now && armedText == old(timeoutInput)
      ensures characterStartTime == old(characterStartTime)
      ensures finalSentenceData == old(finalSentenceData) && thumbnails == old(thumbnails)
      ensures timeoutInput == old(timeoutInput)
    {
      if !isDrawing {
        return;
      }
      isDrawing := false;
      var s := currentStrokeData.value.(endTime := now);
      currentStrokeData := Some(s);
      clock := now;
      if |s.x| > 1 {
        strokesForCurrentChar := strokesForCurrentChar + [s];
      }
      armedAt, armedText := now, timeoutInput;
      timerArmed := true;
      StopKeepsCapture(old(currentStrokeData).value, old(strokesForCurrentChar), characterStartTime,
                       LastFinalize(finalSentenceData), old(clock), now, currentStrokeData, strokesForCurrentChar);
    }

    /** Close the current character at time `now`: with nothing pending nothing changes;
        otherwise append one record indexed by the sentence's length that holds the pending
        strokes in order, add its thumbnail, and empty the pending list. Its only caller is
        the timer, which is never armed while a stroke is open. */
    method FinalizeCharacter(now: nat)
      requires Valid() && clock <= now && !isDrawing
      modifies this
      ensures Valid()
      ensures old(strokesForCurrentChar) == [] ==> unchanged(this)
      ensures old(strokesForCurrentChar) != [] ==>
        && old(characterStartTime).Some?
        && finalSentenceData == old(finalSentenceData) + [Character(|old(finalSentenceData)|,
             old(characterStartTime).value, now, Numbered(old(strokesForCurrentChar)))]
        && thumbnails == old(thumbnails) + [old(strokesForCurrentChar)]
        && strokesForCurrentChar == [] && characterStartTime == None && clock == now
      ensures isDrawing == old(isDrawing) && timerArmed == old(timerArmed)
      ensures currentStrokeData == old(currentStrokeData) && timeoutInput == old(timeoutInput)
      ensures armedAt == old(armedAt) && armedText == old(armedText)
    {
      if strokesForCurrentChar == [] {
        return;
      }
      FinalizeKeepsCapture(timerArmed, currentStrokeData, strokesForCurrentChar, characterStartTime,
                           LastFinalize(finalSentenceData), clock, now, |finalSentenceData|);
      var c := Character(|finalSentenceData|, characterStartTime.value, now, Numbered(strokesForCurrentChar));
      SentenceAppend(finalSentenceData, thumbnails, c, strokesForCurrentChar);
      finalSentenceData := finalSentenceData + [c];
      thumbnails := thumbnails + [strokesForCurrentChar];
      strokesForCurrentChar := [];
      characterStartTime := None;
      clock := now;
    }

    /** The inactivity timer expiring at time `now`, no earlier than its delay after it was
        armed: an armed timer fires once and finalizes; otherwise nothing happens. */
    method TimerFires(now: nat)
      requires Valid() && clock <= now
      requires timerArmed ==> armedAt + TimeoutDuration(armedText) <= now
      modifies this
      ensures Valid() && !timerArmed
      ensures !old(timerArmed) ==> unchanged(this)
      ensures old(timerArmed) && old(strokesForCurrentChar) != [] ==>
        && old(characterStartTime).Some?
        && finalSentenceData == old(finalSentenceData) + [Character(|old(finalSentenceData)|,
             old(characterStartTime).value, now, Numbered(old(strokesForCurrentChar)))]
        && strokesForCurrentChar == [] && characterStartTime == None
        && now >= old(armedAt) + TimeoutDuration(old(armedText))
        && now >= old(strokesForCurrentChar)[|old(strokesForCurrentChar)| - 1].endTime
                  + TimeoutDuration(old(armedText))
      ensures old(timerArmed) && old(strokesForCurrentChar) == [] ==>
        finalSentenceData == old(finalSentenceData) && strokesForCurrentChar == []
        && characterStartTime == old(characterStartTime)
      ensures thumbnails ==
        if old(timerArmed) && old(strokesForCurrentChar) != [] then old(thumbnails) + [old(strokesForCurrentChar)]
        else old(thumbnails)
      ensures clock == if old(timerArmed) && old(strokesForCurrentChar) != [] then now else old(clock)
      ensures isDrawing == old(isDrawing) && timeoutInput == old(timeoutInput)
      ensures currentStrokeData == old(currentStrokeData)
      ensures armedAt == old(armedAt) && armedText == old(armedText)
    {
      if timerArmed {
        FinalizeCharacter(now);
        timerArmed := false;
      }
    }

    /** clearOutput: drop the thumbnails, the sentence, the pending strokes, the open stroke
        object and the character start time, and cancel the timer. */
    method ClearOutput()
      requires Valid() && !isDrawing
      modifies this
      ensures Valid()
      ensures finalSentenceData == [] && strokesForCurrentChar == [] && thumbnails == []
      ensures characterStartTime == None && currentStrokeData == None && !timerArmed
      ensures isDrawing == old(isDrawing) && timeoutInput == old(timeoutInput) && clock == old(clock)
      ensures armedAt == old(armedAt) && armedText == old(armedText)
    {
      thumbnails := [];
      strokesForCurrentChar := [];
      finalSentenceData := [];
      characterStartTime := None;
      currentStrokeData := None;
      timerArmed := false;
    }

    /** The clear button: clears at once when no thumbnail is shown, otherwise only when
        the user confirms the dialog. */
    method ClearButton(confirmed: bool) returns (cleared: bool)
      requires Valid() && !isDrawing
      modifies this
      ensures Valid()
      ensures cleared == (old(thumbnails) == [] || confirmed)
      ensures !cleared ==> unchanged(this)
      ensures cleared ==>
        && finalSentenceData == [] && strokesForCurrentChar == [] && thumbnails == []
        && characterStartTime == None && currentStrokeData == None && !timerArmed
        && isDrawing == old(isDrawing) && timeoutInput == old(timeoutInput) && clock == old(clock)
        && armedAt == old(armedAt) && armedText == old(armedText)
    {
      cleared := thumbnails == [] || confirmed;
      if cleared {
        ClearOutput();
      }
    }

    /** A keydown anywhere on the page; ignored when it comes from the timeout input.
        The armed timer keeps the delay it was armed with. */
    method KeyDown(key: Key, fromTimeoutInput: bool)
      requires Valid()
      modifies this`timeoutInput
      ensures Valid()
      ensures timeoutInput == if fromTimeoutInput then old(timeoutInput) else AfterKey(old(timeoutInput), key)
    {
      if !fromTimeoutInput {
        timeoutInput := AfterKey(timeoutInput, key);
      }
    }

    /** The user typing into the timeout input. */
    method EditTimeout(text: string)
      requires Valid()
      modifies this`timeoutInput
      ensures Valid() && timeoutInput == text
    {
      timeoutInput := text;
    }

    /** The save-json button: nothing to save for an empty sentence, otherwise the whole
        sentence, one array entry per character. */
    method SaveJson() returns (r: JsonExport)
      ensures r == NoData <==> finalSentenceData == []
      ensures r.Json? ==> r.characters == finalSentenceData
    {
      if |finalSentenceData| == 0 {
        return NoData;
      }
      r := Json(finalSentenceData);
    }

    /** The save-png button: nothing to save without thumbnails, otherwise a canvas of the
        grid size and one cell per thumbnail, in order, each inside the canvas and
        overlapping no other. */
    method SavePng() returns (r: PngExport)
      ensures r == NoImage <==> thumbnails == []
      ensures r.Png? ==>
        && r.width == Width(|thumbnails|, ThumbSize) && r.height == Height(|thumbnails|, ThumbSize)
        && |r.cells| == |thumbnails|
        && (forall i :: 0 <= i < |r.cells| ==>
              r.cells[i] == Cell(i, ThumbSize) && Inside(r.cells[i], ThumbSize, r.width, r.height))
        && (forall i, j :: 0 <= i < |r.cells| && 0 <= j < |r.cells| && i != j ==>
              Apart(r.cells[i], r.cells[j], ThumbSize))
    {
      var n := |thumbnails|;
      if n == 0 {
        return NoImage;
      }
      var width, height := Width(n, ThumbSize), Height(n, ThumbSize);
      var cells: seq<Origin> := [];
      var index := 0;
      while index < n
        invariant 0 <= index <= n && |cells| == index
        invariant forall i :: 0 <= i < index ==>
          cells[i] == Cell(i, ThumbSize) && Inside(cells[i], ThumbSize, width, height)
      {
        var row := index / Columns;
        var col := index % Columns;
        CellInside(n, ThumbSize, index);
        cells := cells + [Origin(col * ThumbSize, row * ThumbSize)];
        index := index + 1;
      }
      forall i, j | 0 <= i < n && 0 <= j < n && i != j
        ensures Apart(cells[i], cells[j], ThumbSize)
      {
        CellsApart(ThumbSize, i, j);
      }
      r := Png(width, height, cells);
    }
  }

  /** What the sentence invariant says about character i: its index is i, it holds the
      strokes of thumbnail i numbered 0..k-1, closed and in time order, dropping the
      numbers gives back exactly those strokes, and it was finalized no later than the
      next character started. */
  lemma {:induction false} SentenceAt(s: seq<Character>, thumbs: seq<seq<Stroke>>, i: nat)
    requires SentenceOK(s, thumbs) && i < |s|
    ensures |thumbs| == |s|
    ensures s[i].characterIndex == i && CharacterOK(s[i], i, thumbs[i])
    ensures Unnumbered(s[i].strokes) == thumbs[i]
    ensures i + 1 < |s| ==> s[i].characterFinalizeTime <= s[i + 1].characterStartTime
  {
    var n := |s| - 1;
    if i < n {
      SentenceAt(s[..n], thumbs[..n], i);
      if i + 1 < n {
        assert s[..n][i + 1] == s[i + 1];
      }
    }
    UnnumberedNumbered(thumbs[i]);
  }

  /** Appending a well-formed character that started after the last one was finalized,
      with its thumbnail, keeps the sentence invariant. */
  lemma SentenceAppend(s: seq<Character>, thumbs: seq<seq<Stroke>>, c: Character, ss: seq<Stroke>)
    requires SentenceOK(s, thumbs) && CharacterOK(c, |s|, ss) && LastFinalize(s) <= c.characterStartTime
    ensures SentenceOK(s + [c], thumbs + [ss])
  {
    assert (s + [c])[..|s|] == s;
    assert (thumbs + [ss])[..|s|] == thumbs;
  }

  /** Pending strokes stay valid as the clock advances. */
  lemma PendingLater(ss: seq<Stroke>, clock: nat, now: nat)
    requires PendingOK(ss, clock) && clock <= now
    ensures PendingOK(ss, now)
  {
  }

  /** Appending a closed stroke that began no earlier than the last pending one ended keeps the
      pending list valid. */
  lemma PendingAppend(ss: seq<Stroke>, s: Stroke, clock: nat, now: nat)
    requires PendingOK(ss, clock) && clock <= now
    requires ClosedStroke(s) && s.endTime <= now
    requires ss != [] ==> ss[|ss| - 1].endTime <= s.startTime
    ensures PendingOK(ss + [s], now)
  {
    var r := ss + [s];
    forall k | 0 <= k < |r|
      ensures ClosedStroke(r[k]) && r[k].endTime <= now
    {
      if k < |ss| {
        assert r[k] == ss[k];
      }
    }
  }

  /** Pointer-down keeps the capture invariant: the new stroke is open at `now`, the timer is
      cancelled, and a new character starts at `now` when nothing is pending. */
  lemma StartKeepsCapture(drawing: bool, armed: bool, current: Option<Stroke>, pending: seq<Stroke>,
                          start: Option<nat>, lastFinalize: nat, clock: nat, now: nat, px: int, py: int,
                          current': Option<Stroke>, start': Option<nat>)
    requires CaptureOK(drawing, armed, current, pending, start, lastFinalize, clock) && clock <= now
    requires current' == Some(Stroke(now, 0, [0], [px], [py]))
    requires start' == if pending == [] then Some(now) else start
    ensures CaptureOK(true, false, current', pending, start', lastFinalize, now)
  {
    PendingLater(pending, clock, now);
  }

  /** A pointer-move sample at `now` keeps the capture invariant. */
  lemma DrawKeepsCapture(armed: bool, s: Stroke, pending: seq<Stroke>, start: Option<nat>,
                         lastFinalize: nat, clock: nat, now: nat, px: int, py: int, current': Option<Stroke>)
    requires CaptureOK(true, armed, Some(s), pending, start, lastFinalize, clock) && clock <= now
    requires current' == Some(s.(t := s.t + [now - s.startTime], x := s.x + [px], y := s.y + [py]))
    ensures CaptureOK(true, armed, current', pending, start, lastFinalize, now)
  {
    AppendSampleKeepsOrder(s.t, now - s.startTime);
    PendingLater(pending, clock, now);
  }

  /** Pointer-up at `now` keeps the capture invariant: the stroke closes at `now`, joins the
      pending strokes when it has more than one point, and the timer is armed. */
  lemma StopKeepsCapture(s: Stroke, pending: seq<Stroke>, start: Option<nat>, lastFinalize: nat,
                         clock: nat, now: nat, current': Option<Stroke>, pending': seq<Stroke>)
    requires CaptureOK(true, false, Some(s), pending, start, lastFinalize, clock) && clock <= now
    requires current' == Some(s.(endTime := now))
    requires pending' == if |s.x| > 1 then pending + [s.(endTime := now)] else pending
    ensures s.startTime <= now
    ensures CaptureOK(false, true, current', pending', start, lastFinalize, now)
  {
    var c := s.(endTime := now);
    if |s.x| > 1 {
      assert ClosedStroke(c) by {
        assert PointsOK(s);
      }
      PendingAppend(pending, c, clock, now);
      assert pending'[0] == if pending == [] then c else pending[0];
    } else {
      PendingLater(pending, clock, now);
    }
  }

  /** Finalizing the pending strokes at `now` gives a well-formed character at position i
      that started no earlier than the previous one was finalized, and leaves nothing pending. */
  lemma FinalizeKeepsCapture(armed: bool, current: Option<Stroke>, pending: seq<Stroke>,
                             start: Option<nat>, lastFinalize: nat, clock: nat, now: nat, i: nat)
    requires CaptureOK(false, armed, current, pending, start, lastFinalize, clock) && clock <= now
    requires pending != []
    ensures start.Some? && lastFinalize <= start.value
    ensures CharacterOK(Character(i, start.value, now, Numbered(pending)), i, pending)
    ensures CaptureOK(false, armed, current, [], None, now, now)
  {
    PendingLater(pending, clock, now);
  }

  /** A sample taken no earlier than the last keeps the times ascending. */
  lemma AppendSampleKeepsOrder(t: seq<int>, sample: int)
    requires Ascending(t) && (t == [] || t[|t| - 1] <= sample)
    ensures Ascending(t + [sample])
  {
  }

  /** A pointer-down at (x0, y0) at time t0, one move to (x1, y1) at t1 and the pointer-up
      at t2: one more pending stroke of two points, and the timer armed at t2. */
  method DrawTwoPointStroke(session: Session, t0: nat, t1: nat, t2: nat, x0: int, y0: int, x1: int, y1: int)
    requires session.Valid() && session.clock <= t0 <= t1 <= t2
    modifies session
    ensures session.Valid() && session.clock == t2 && !session.isDrawing
    ensures session.strokesForCurrentChar ==
      old(session.strokesForCurrentChar) + [Stroke(t0, t2, [0, t1 - t0], [x0, x1], [y0, y1])]
    ensures session.characterStartTime ==
      if old(session.strokesForCurrentChar) == [] then Some(t0) else old(session.characterStartTime)
    ensures session.timerArmed && session.armedAt == t2
    ensures session.armedText == old(session.timeoutInput)
    ensures session.finalSentenceData == old(session.finalSentenceData)
    ensures session.thumbnails == old(session.thumbnails)
    ensures session.timeoutInput == old(session.timeoutInput)
  {
    session.StartDrawing(t0, x0, y0);
    session.Draw(t1, x1, y1);
    assert [0] + [t1 - t0] == [0, t1 - t0] && [x0] + [x1] == [x0, x1] && [y0] + [y1] == [y0, y1];
    assert session.currentStrokeData == Some(Stroke(t0, 0, [0, t1 - t0], [x0, x1], [y0, y1]));
    session.StopDrawing(t2);
  }

  /** Two strokes drawn within the timeout and then the timer firing give one character
      holding both strokes, in order, indexed 0 and 1. */
  method TwoStrokesOneCharacter() returns (sentence: seq<Character>)
    ensures sentence == [Character(0, 0, 1530, [StrokeRecord(0, 0, 20, [0, 16], [10, 12], [10, 14]),
                                                StrokeRecord(1, 500, 530, [0, 20], [30, 30], [10, 40])])]
  {
    var session := new Session("");
    var first := Stroke(0, 20, [0, 16], [10, 12], [10, 14]);
    var second := Stroke(500, 530, [0, 20], [30, 30], [10, 40]);
    DrawTwoPointStroke(session, 0, 16, 20, 10, 10, 12, 14);
    DrawTwoPointStroke(session, 500, 520, 530, 30, 10, 30, 40);
    assert session.strokesForCurrentChar == [first] + [second] == [first, second];
    assert session.finalSentenceData == [] && session.characterStartTime == Some(0);
    assert TimeoutDuration("") == DefaultTimeout;
    session.TimerFires(1530);
    sentence := session.finalSentenceData;
    assert sentence == [] + [Character(0, 0, 1530, Numbered([first, second]))];
    var records := Numbered([first, second]);
    assert records[0] == StrokeRecord(0, 0, 20, [0, 16], [10, 12], [10, 14]);
    assert records[1] == StrokeRecord(1, 500, 530, [0, 20], [30, 30], [10, 40]);
    assert records == [records[0], records[1]];
  }

  /** A pause longer than the timeout splits the writing: one stroke, the timer, another
      stroke, the timer again give two characters indexed 0 and 1 with one thumbnail each,
      and a clear afterwards still lets a new stroke start. */
  method TwoCharactersThenClear() returns (sentence: seq<Character>, thumbs: seq<seq<Stroke>>)
    ensures |sentence| == 2 && |thumbs| == 2
    ensures sentence[0] == Character(0, 0, 1020, Numbered([Stroke(0, 20, [0, 16], [10, 12], [10, 14])]))
    ensures sentence[1] == Character(1, 2000, 3030, Numbered([Stroke(2000, 2030, [0, 10], [50, 60], [5, 5])]))
    ensures thumbs == [[Stroke(0, 20, [0, 16], [10, 12], [10, 14])], [Stroke(2000, 2030, [0, 10], [50, 60], [5, 5])]]
  {
    var session := new Session("");
    var first := Stroke(0, 20, [0, 16], [10, 12], [10, 14]);
    var second := Stroke(2000, 2030, [0, 10], [50, 60], [5, 5]);
    DrawTwoPointStroke(session, 0, 16, 20, 10, 10, 12, 14);
    assert session.strokesForCurrentChar == [] + [first] == [first];
    assert TimeoutDuration("") == DefaultTimeout;
    session.TimerFires(1020);
    assert session.thumbnails == [] + [[first]] == [[first]];
    DrawTwoPointStroke(session, 2000, 2010, 2030, 50, 5, 60, 5);
    assert session.strokesForCurrentChar == [] + [second] == [second];
    session.TimerFires(3030);
    sentence, thumbs := session.finalSentenceData, session.thumbnails;
    assert thumbs == [[first]] + [[second]] == [[first], [second]];
    var cleared := session.ClearButton(true);
    session.StartDrawing(4000, 1, 1);
    assert session.isDrawing && session.finalSentenceData == [];
  }

  /** A tap without movement is dropped: the timer still fires, but no character appears. */
  method TapLeavesNoCharacter() returns (sentence: seq<Character>)
    ensures sentence == []
  {
    var session := new Session("");
    session.StartDrawing(0, 10, 10);
    session.StopDrawing(5);
    session.TimerFires(1005);
    sentence := session.finalSentenceData;
  }

  /** A tap while a stroke is pending restarts the timeout: strokes 20 ms and 1500 ms apart,
      with a tap between them, become one character although the gap exceeds the 1000 ms delay. */
  method TapRestartsTimeout() returns (sentence: seq<Character>)
    ensures sentence == [Character(0, 0, 2530, Numbered([Stroke(0, 20, [0, 16], [10, 12], [10, 14]),
                                                         Stroke(1500, 1530, [0, 20], [30, 30], [10, 40])]))]
  {
    var session := new Session("");
    var first := Stroke(0, 20, [0, 16], [10, 12], [10, 14]);
    var second := Stroke(1500, 1530, [0, 20], [30, 30], [10, 40]);
    DrawTwoPointStroke(session, 0, 16, 20, 10, 10, 12, 14);
    session.StartDrawing(1000, 50, 50);
    session.StopDrawing(1005);
    DrawTwoPointStroke(session, 1500, 1520, 1530, 30, 10, 30, 40);
    assert session.strokesForCurrentChar == [first] + [second] == [first, second];
    assert TimeoutDuration("") == DefaultTimeout;
    session.TimerFires(2530);
    sentence := session.finalSentenceData;
    assert sentence == [] + [Character(0, 0, 2530, Numbered([first, second]))];
  }

  /** After a character is finalized and the output cleared, both exports have nothing to save. */
  method ClearEmptiesExports() returns (json: JsonExport, png: PngExport)
    ensures json == NoData && png == NoImage
  {
    var session := new Session("");
    session.StartDrawing(0, 10, 10);
    session.Draw(16, 12, 14);
    session.StopDrawing(20);
    session.TimerFires(1020);
    session.ClearOutput();
    json := session.SaveJson();
    png := session.SavePng();
  }
}
