/** The barcode de-duplication of the camera view
    (MyBookshelf/CameraScannerView.swift): a scanned code is reported once
    until a short timer, started when no code is in view, clears the
    remembered code.

    The capture session itself is not modelled. Metadata batches, the timer
    firing and the session's running state are inputs; the main-queue hops
    run synchronously; the callbacks the view fires are returned. */
module Scanner {
  import opened Foundation

  datatype CodeType = Ean8 | Ean13 | OtherCodeType(name: string)

  /** The first object of a metadata batch: a machine-readable code with
      its type and (maybe) its string, or some other kind of object. */
  datatype MetadataObject =
    | MachineReadableCode(codeType: CodeType, stringValue: Option<string>)
    | OtherMetadataObject

  /** A call of `onCodeScanned` or `onCodeDisappeared`. */
  datatype Callback = CodeScanned(code: string) | CodeDisappeared

  /** The de-duplication state: the remembered code and whether a
      disappear timer is scheduled and not yet fired or cancelled. */
  datatype ScanState = ScanState(lastScannedCode: Option<string>, timerPending: bool)

  /** What can happen to the view: a metadata batch arrives, or the
      pending disappear timer fires. */
  datatype ScanEvent = Output(objects: seq<MetadataObject>) | TimerFire

  // ----- the state machine -----

  /** `handleScannedCode`: cancel the timer; report the code only if it is
      not the remembered one, and remember it. */
  function HandleScannedCodeSpec(s: ScanState, code: string): (ScanState, seq<Callback>) {
    (ScanState(Some(code), false), if Some(code) != s.lastScannedCode then [CodeScanned(code)] else [])
  }

  /** `startCodeDisappearedTimer`: cancel the pending timer and schedule a
      new one. */
  function StartTimerSpec(s: ScanState): (ScanState, seq<Callback>) {
    (s.(timerPending := true), [])
  }

  /** The timer's block: forget the code and report that it disappeared. */
  function TimerFiredSpec(s: ScanState): (ScanState, seq<Callback>) {
    if s.timerPending then (ScanState(None, false), [CodeDisappeared]) else (s, [])
  }

  /** `metadataOutput`: an EAN-8 or EAN-13 code with a string is handled,
      another code type is ignored, and a batch whose first object is not
      a machine-readable code (or an empty batch) starts the timer. */
  function MetadataOutputSpec(s: ScanState, objects: seq<MetadataObject>): (ScanState, seq<Callback>) {
    if |objects| > 0 && objects[0].MachineReadableCode? then
      var code := objects[0];
      if code.codeType == Ean8 || code.codeType == Ean13 then
        if code.stringValue.None? then (s, []) else HandleScannedCodeSpec(s, code.stringValue.value)
      else (s, [])
    else StartTimerSpec(s)
  }

  function Step(s: ScanState, e: ScanEvent): (ScanState, seq<Callback>) {
    match e
    case Output(objects) => MetadataOutputSpec(s, objects)
    case TimerFire => TimerFiredSpec(s)
  }

  /** The state after a sequence of events and the callbacks fired, in order. */
  function Run(s: ScanState, events: seq<ScanEvent>): (ScanState, seq<Callback>)
    decreases |events|
  {
    if events == [] then (s, [])
    else
      var first := Step(s, events[0]);
      var rest := Run(first.0, events[1..]);
      (rest.0, first.1 + rest.1)
  }

  /** A batch holding one EAN-13 code. */
  function ScanOf(code: string): ScanEvent {
    Output([MachineReadableCode(Ean13, Some(code))])
  }

  function Repeat(e: ScanEvent, n: nat): (r: seq<ScanEvent>)
    ensures |r| == n && forall i :: 0 <= i < n ==> r[i] == e
  {
    if n == 0 then [] else [e] + Repeat(e, n - 1)
  }

  // ----- properties -----

  /** A scan fires `onCodeScanned` exactly when the code differs from the
      remembered one; afterwards the code is remembered and no timer is
      pending. */
  lemma HandleFiresIffNew(s: ScanState, code: string)
    ensures HandleScannedCodeSpec(s, code).1 != [] <==> Some(code) != s.lastScannedCode
    ensures HandleScannedCodeSpec(s, code).1 != [] ==> HandleScannedCodeSpec(s, code).1 == [CodeScanned(code)]
    ensures HandleScannedCodeSpec(s, code).0 == ScanState(Some(code), false)
  {
  }

  /** Only an EAN-8 or EAN-13 code with a string value can fire a callback
      from a metadata batch, and it fires that string. */
  lemma OnlyEanCodesFire(s: ScanState, objects: seq<MetadataObject>)
    ensures MetadataOutputSpec(s, objects).1 != [] ==>
      && |objects| > 0 && objects[0].MachineReadableCode?
      && (objects[0].codeType == Ean8 || objects[0].codeType == Ean13)
      && objects[0].stringValue.Some?
      && MetadataOutputSpec(s, objects).1 == [CodeScanned(objects[0].stringValue.value)]
    ensures |objects| == 0 || objects[0].OtherMetadataObject? ==>
      MetadataOutputSpec(s, objects) == (s.(timerPending := true), [])
    ensures |objects| > 0 && objects[0].MachineReadableCode? && objects[0].codeType.OtherCodeType? ==>
      MetadataOutputSpec(s, objects) == (s, [])
  {
  }

  /** Runs compose: running `a` then `b` is running `a + b`. */
  lemma {:induction false} RunAppend(s: ScanState, a: seq<ScanEvent>, b: seq<ScanEvent>)
    ensures Run(s, a + b) == (Run(Run(s, a).0, b).0, Run(s, a).1 + Run(Run(s, a).0, b).1)
    decreases |a|
  {
    if a != [] {
      assert (a + b)[0] == a[0] && (a + b)[1..] == a[1..] + b;
      var first := Step(s, a[0]);
      RunAppend(first.0, a[1..], b);
      var mid := Run(first.0, a[1..]);
      var last := Run(mid.0, b);
      assert Run(s, a) == (mid.0, first.1 + mid.1);
      assert first.1 + (mid.1 + last.1) == (first.1 + mid.1) + last.1;
    } else {
      assert a + b == b;
      assert Run(s, a).1 + Run(s, b).1 == Run(s, b).1;
    }
  }

  lemma RunOne(s: ScanState, e: ScanEvent)
    ensures Run(s, [e]) == Step(s, e)
  {
    assert [e][1..] == [];
    assert Step(s, e).1 + [] == Step(s, e).1;
  }

  /** Scanning the remembered code again and again fires nothing. */
  lemma {:induction false} RescanFiresNothing(code: string, n: nat)
    ensures Run(ScanState(Some(code), false), Repeat(ScanOf(code), n)) == (ScanState(Some(code), false), [])
  {
    if n > 0 {
      var events := Repeat(ScanOf(code), n);
      assert events[0] == ScanOf(code) && events[1..] == Repeat(ScanOf(code), n - 1);
      assert Step(ScanState(Some(code), false), ScanOf(code)) == (ScanState(Some(code), false), []);
      RescanFiresNothing(code, n - 1);
      var none: seq<Callback> := [];
      assert none + none == none;
    }
  }

  /** A run of identical scans of a code that is not the remembered one
      fires exactly one `onCodeScanned`. */
  lemma IdenticalScansFireOnce(s: ScanState, code: string, n: nat)
    requires n >= 1 && s.lastScannedCode != Some(code)
    ensures Run(s, Repeat(ScanOf(code), n)) == (ScanState(Some(code), false), [CodeScanned(code)])
  {
    var events := Repeat(ScanOf(code), n);
    assert events == [ScanOf(code)] + Repeat(ScanOf(code), n - 1);
    RunAppend(s, [ScanOf(code)], Repeat(ScanOf(code), n - 1));
    RunOne(s, ScanOf(code));
    RescanFiresNothing(code, n - 1);
  }

  /** After the timer fires the code is forgotten, so scanning it again
      fires once more. */
  lemma DisappearAllowsRescan(code: string)
    ensures Run(ScanState(Some(code), true), [TimerFire, ScanOf(code)])
         == (ScanState(Some(code), false), [CodeDisappeared, CodeScanned(code)])
  {
    assert [TimerFire, ScanOf(code)][1..] == [ScanOf(code)];
    RunOne(ScanState(None, false), ScanOf(code));
    assert [CodeDisappeared] + [CodeScanned(code)] == [CodeDisappeared, CodeScanned(code)];
  }

  // ----- the view -----

  type TimerId = nat

  datatype CaptureOutcome = CompletedWithNil | PhotoRequested

  class CameraScannerView {
    var isCameraActiveInternal: bool
    var lastScannedCode: Option<string>
    /** The timer `codeDisappearedTimer` refers to, if any. */
    var codeDisappearedTimer: Option<TimerId>
    /** The timers scheduled and neither fired nor invalidated. */
    var liveTimers: set<TimerId>
    /** `captureImage` has stored a completion handler and asked for a photo. */
    var photoRequested: bool

    /** A live timer is always the one the view refers to, so at most one
        timer is ever pending. */
    ghost predicate Valid()
      reads this
      ensures Valid() ==> |liveTimers| <= 1
    {
      liveTimers == {} || (codeDisappearedTimer.Some? && liveTimers == {codeDisappearedTimer.value})
    }

    function State(): ScanState
      reads this
    {
      ScanState(lastScannedCode, liveTimers != {})
    }

    constructor()
      ensures Valid() && State() == ScanState(None, false)
      ensures !isCameraActiveInternal && !photoRequested
    {
      isCameraActiveInternal := false;
      lastScannedCode := None;
      codeDisappearedTimer := None;
      liveTimers := {};
      photoRequested := false;
    }

    /** The `isCameraActive` setter stores the flag (starting or stopping
        the session happens on another queue and is not modelled). */
    method SetCameraActive(newValue: bool)
      modifies this
      ensures isCameraActiveInternal == newValue
      ensures lastScannedCode == old(lastScannedCode) && codeDisappearedTimer == old(codeDisappearedTimer)
      ensures liveTimers == old(liveTimers) && photoRequested == old(photoRequested)
    {
      isCameraActiveInternal := newValue;
    }

    /** `reset`: the camera becomes active. */
    method Reset()
      modifies this
      ensures isCameraActiveInternal
      ensures lastScannedCode == old(lastScannedCode) && codeDisappearedTimer == old(codeDisappearedTimer)
      ensures liveTimers == old(liveTimers) && photoRequested == old(photoRequested)
    {
      SetCameraActive(true);
    }

    /** `captureImage`: with the session not running the completion gets
        nil at once; otherwise it is stored and a photo is requested. */
    method CaptureImage(sessionRunning: bool) returns (outcome: CaptureOutcome)
      modifies this
      ensures outcome == (if sessionRunning then PhotoRequested else CompletedWithNil)
      ensures photoRequested == (sessionRunning || old(photoRequested))
      ensures lastScannedCode == old(lastScannedCode) && codeDisappearedTimer == old(codeDisappearedTimer)
      ensures liveTimers == old(liveTimers) && isCameraActiveInternal == old(isCameraActiveInternal)
    {
      if !sessionRunning {
        outcome := CompletedWithNil;
        return;
      }
      photoRequested := true;
      outcome := PhotoRequested;
    }

    /** `codeDisappearedTimer?.invalidate()` */
    method InvalidateTimer()
      requires Valid()
      modifies this
      ensures Valid() && liveTimers == {}
      ensures lastScannedCode == old(lastScannedCode) && codeDisappearedTimer == old(codeDisappearedTimer)
      ensures isCameraActiveInternal == old(isCameraActiveInternal) && photoRequested == old(photoRequested)
    {
      if codeDisappearedTimer.Some? {
        liveTimers := liveTimers - {codeDisappearedTimer.value};
      }
    }

    method HandleScannedCode(code: string) returns (fired: seq<Callback>)
      requires Valid()
      modifies this
      ensures Valid()
      ensures (State(), fired) == HandleScannedCodeSpec(old(State()), code)
      ensures isCameraActiveInternal == old(isCameraActiveInternal) && photoRequested == old(photoRequested)
    {
      InvalidateTimer();
      fired := [];
      if Some(code) != lastScannedCode {
        lastScannedCode := Some(code);
        fired := [CodeScanned(code)];
      }
    }

    /** Schedules the timer `newTimer` after cancelling the current one. */
    method StartCodeDisappearedTimer(newTimer: TimerId)
      requires Valid()
      modifies this
      ensures Valid() && codeDisappearedTimer == Some(newTimer) && liveTimers == {newTimer}
      ensures State() == StartTimerSpec(old(State())).0
      ensures isCameraActiveInternal == old(isCameraActiveInternal) && photoRequested == old(photoRequested)
    {
      InvalidateTimer();
      codeDisappearedTimer := Some(newTimer);
      liveTimers := liveTimers + {newTimer};
    }

    /** Timer `t` fires. Only a live timer runs its block. */
    method TimerFires(t: TimerId) returns (fired: seq<Callback>)
      requires Valid()
      modifies this
      ensures Valid()
      ensures t in old(liveTimers) ==> (State(), fired) == TimerFiredSpec(old(State()))
      ensures t !in old(liveTimers) ==> fired == [] && State() == old(State())
      ensures isCameraActiveInternal == old(isCameraActiveInternal) && photoRequested == old(photoRequested)
    {
      fired := [];
      if t in liveTimers {
        liveTimers := liveTimers - {t};
        lastScannedCode := None;
        fired := [CodeDisappeared];
      }
    }

    /** `metadataOutput(_:didOutput:from:)`; `newTimer` is the timer it
        schedules if it starts one. */
    method MetadataOutput(objects: seq<MetadataObject>, newTimer: TimerId) returns (fired: seq<Callback>)
      requires Valid()
      modifies this
      ensures Valid()
      ensures (State(), fired) == MetadataOutputSpec(old(State()), objects)
      ensures isCameraActiveInternal == old(isCameraActiveInternal) && photoRequested == old(photoRequested)
    {
      fired := [];
      if |objects| > 0 && objects[0].MachineReadableCode? {
        var metadataObject := objects[0];
        if metadataObject.codeType == Ean8 || metadataObject.codeType == Ean13 {
          if metadataObject.stringValue.None? {
            return;
          }
          fired := HandleScannedCode(metadataObject.stringValue.value);
        }
      } else {
        StartCodeDisappearedTimer(newTimer);
      }
    }
  }
}
