/** The Input and Mix list entry points of the scripting model API, and the
    global-variable accessors, over the model configuration they edit. */
module ApiModel {
  import opened Wrappers
  import opened GroupedList

  // Board limits (the ARM radios that run the scripting engine).
  const MaxExpos: nat := 64
  const MaxInputs: nat := 32
  const MaxMixers: nat := 64
  const NumChnOut: nat := 32
  const MaxFlightModes: nat := 9
  const MaxGvars: nat := 9
  const GvarMax: int := 1024

  /** The fields of an input line other than its key (`chn`) and source. */
  datatype InputLine = InputLine(name: string, weight: int, offset: int, swtch: int)

  /** The fields of a mix line other than its key (`destCh`) and source. */
  datatype MixLine = MixLine(
    name: string, weight: int, offset: int, swtch: int,
    curveType: int, curveValue: int, multiplex: int, flightModes: int, carryTrim: bool,
    mixWarn: int, delayUp: int, delayDown: int, speedUp: int, speedDown: int)

  /** All-zero slots, as left by clearing memory. */
  const BlankInput: Slot<InputLine> := Slot(0, 0, InputLine("", 0, 0, 0))
  const BlankMix: Slot<MixLine> := Slot(0, 0, MixLine("", 0, 0, 0, 0, 0, 0, 0, false, 0, 0, 0, 0, 0))

  /** The guard of setGlobalVariable. */
  predicate GvarWritable(phase: nat, idx: nat, value: int)
  {
    phase < MaxFlightModes && idx < MaxGvars && -GvarMax <= value <= GvarMax
  }

  /** The part of the loaded model that the list and global-variable entry points edit. */
  class ModelData {
    const inputs: array<Slot<InputLine>>
    const mixes: array<Slot<MixLine>>
    /** flightModeData[phase].gvars[idx] */
    const gvars: array2<int>
    /** The current channel handed to the unseen insert helper, one-based. */
    var currCh: nat
    /** Set when a change must be saved. */
    ghost var dirty: bool

    predicate Shaped()
      reads this
    {
      && inputs.Length == MaxExpos && mixes.Length == MaxMixers
      && gvars.Length0 == MaxFlightModes && gvars.Length1 == MaxGvars
    }

    /** Both lists keep the layout the scans rely on. */
    ghost predicate Valid()
      reads this, inputs, mixes
    {
      WellFormed(inputs[..]) && WellFormed(mixes[..])
    }

    /** Every global variable lies in the range setGlobalVariable admits. */
    ghost predicate GvarsInRange()
      reads this, gvars
    {
      forall p, i :: 0 <= p < gvars.Length0 && 0 <= i < gvars.Length1 ==> -GvarMax <= gvars[p, i] <= GvarMax
    }

    constructor ()
      ensures Shaped() && Valid() && GvarsInRange() && !dirty
      ensures fresh(inputs) && fresh(mixes) && fresh(gvars)
      ensures forall j :: 0 <= j < inputs.Length ==> inputs[j] == BlankInput
      ensures forall j :: 0 <= j < mixes.Length ==> mixes[j] == BlankMix
    {
      inputs := new Slot<InputLine>[MaxExpos](_ => BlankInput);
      mixes := new Slot<MixLine>[MaxMixers](_ => BlankMix);
      gvars := new int[MaxFlightModes, MaxGvars]((_, _) => 0);
      currCh := 0;
      dirty := false;
    }

    // -------------------------------------------------------------------
    // Inputs

    /** getInputsCount */
    method GetInputsCount(chn: nat) returns (count: nat)
      ensures count == Count(inputs[..], chn, inputs.Length)
      ensures Valid() ==> count == |Group(inputs[..], chn)|
    {
      var first := FirstIndex(inputs, chn, inputs.Length);
      count := RunLengthAt(inputs, chn, first, inputs.Length);
      if WellFormed(inputs[..]) {
        CountIsGroupSize(inputs[..], chn);
      }
    }

    /** getInput: line `line` of input `chn`, or None (nil). */
    method GetInput(chn: nat, line: nat) returns (r: Option<Slot<InputLine>>)
      ensures r == Get(inputs[..], chn, line, inputs.Length)
      ensures Valid() ==>
                r == if line < |Group(inputs[..], chn)| then Some(Group(inputs[..], chn)[line]) else None
    {
      var first := FirstIndex(inputs, chn, inputs.Length);
      var count := RunLengthAt(inputs, chn, first, inputs.Length);
      if line < count {
        r := Some(inputs[first + line]);
      } else {
        r := None;
      }
      if WellFormed(inputs[..]) {
        GetIsGroupLine(inputs[..], chn, line);
      }
    }

    /** insertInput: a new line `line` of input `chn`, whose source and
        other fields come from the script's table. */
    method InsertInput(chn: nat, line: nat, source: int, fields: InputLine)
      modifies inputs, this`currCh
      ensures var r := InsertLine(old(inputs[..]), inputs.Length, MaxInputs, chn, line, source, fields);
              && inputs[..] == r.GetOr(old(inputs[..]))
              && currCh == if r.Some? then chn + 1 else old(currCh)
      ensures old(WellFormed(inputs[..])) && source != 0 ==> WellFormed(inputs[..])
      ensures old(Valid()) && source != 0 ==> Valid()
    {
      // s_currCh is set to chn + 1 only when the insert is accepted
      var ok := InsertInPlace(inputs, MaxInputs, chn, line, source, fields);
      if ok {
        currCh := chn + 1;
      }
    }

    /** deleteInput */
    method DeleteInput(chn: nat, line: nat)
      modifies inputs
      ensures inputs[..] == DeleteLine(old(inputs[..]), inputs.Length, chn, line, BlankInput).GetOr(old(inputs[..]))
      ensures old(WellFormed(inputs[..])) ==> WellFormed(inputs[..])
      ensures old(Valid()) ==> Valid()
    {
      ghost var before := inputs[..];
      var first := FirstIndex(inputs, chn, inputs.Length);
      var count := RunLengthAt(inputs, chn, first, inputs.Length);
      if line < count {
        ShiftOut(inputs, first + line, BlankInput);
        if WellFormed(before) {
          DeletePreservesLayout(before, inputs.Length, chn, line, BlankInput);
        }
      }
    }

    /** deleteInputs: the whole input list is zeroed (clearInputs). */
    method DeleteInputs()
      modifies inputs
      ensures inputs[..] == Cleared(old(inputs[..]), BlankInput)
      ensures WellFormed(inputs[..])
      ensures forall k: nat :: First(inputs[..], k, inputs.Length) == 0 && Count(inputs[..], k, inputs.Length) == 0
      ensures old(Valid()) ==> Valid()
    {
      Fill(inputs, BlankInput);
      forall k: nat ensures First(inputs[..], k, inputs.Length) == 0 && Count(inputs[..], k, inputs.Length) == 0 {
        ClearedIsEmpty(inputs[..], BlankInput, k);
      }
      ClearedIsEmpty(inputs[..], BlankInput, 0);
    }

    /** defaultInputs: the input list is replaced by the default layout the
        unseen helper builds, which is passed in. */
    method DefaultInputs(layout: seq<Slot<InputLine>>)
      requires |layout| == inputs.Length && WellFormed(layout)
      modifies inputs
      ensures inputs[..] == layout
      ensures old(Valid()) ==> Valid()
    {
      for j := 0 to inputs.Length
        invariant forall m :: 0 <= m < j ==> inputs[m] == layout[m]
      {
        inputs[j] := layout[j];
      }
    }

    // -------------------------------------------------------------------
    // Mixes

    /** getMixesCount */
    method GetMixesCount(chn: nat) returns (count: nat)
      ensures count == Count(mixes[..], chn, mixes.Length)
      ensures Valid() ==> count == |Group(mixes[..], chn)|
    {
      var first := FirstIndex(mixes, chn, mixes.Length);
      count := RunLengthAt(mixes, chn, first, mixes.Length);
      if WellFormed(mixes[..]) {
        CountIsGroupSize(mixes[..], chn);
      }
    }

    /** getMix: line `line` of output channel `chn`, or None (nil). */
    method GetMix(chn: nat, line: nat) returns (r: Option<Slot<MixLine>>)
      ensures r == Get(mixes[..], chn, line, mixes.Length)
      ensures Valid() ==>
                r == if line < |Group(mixes[..], chn)| then Some(Group(mixes[..], chn)[line]) else None
    {
      var first := FirstIndex(mixes, chn, mixes.Length);
      var count := RunLengthAt(mixes, chn, first, mixes.Length);
      if line < count {
        r := Some(mixes[first + line]);
      } else {
        r := None;
      }
      if WellFormed(mixes[..]) {
        GetIsGroupLine(mixes[..], chn, line);
      }
    }

    /** insertMix: a new line `line` of output channel `chn`. */
    method InsertMix(chn: nat, line: nat, source: int, fields: MixLine)
      modifies mixes, this`currCh
      ensures var r := InsertLine(old(mixes[..]), mixes.Length, NumChnOut, chn, line, source, fields);
              && mixes[..] == r.GetOr(old(mixes[..]))
              && currCh == if r.Some? then chn + 1 else old(currCh)
      ensures old(WellFormed(mixes[..])) && source != 0 ==> WellFormed(mixes[..])
      ensures old(Valid()) && source != 0 ==> Valid()
    {
      // s_currCh is set to chn + 1 only when the insert is accepted
      var ok := InsertInPlace(mixes, NumChnOut, chn, line, source, fields);
      if ok {
        currCh := chn + 1;
      }
    }

    /** deleteMix */
    method DeleteMix(chn: nat, line: nat)
      modifies mixes
      ensures mixes[..] == DeleteLine(old(mixes[..]), mixes.Length, chn, line, BlankMix).GetOr(old(mixes[..]))
      ensures old(WellFormed(mixes[..])) ==> WellFormed(mixes[..])
      ensures old(Valid()) ==> Valid()
    {
      ghost var before := mixes[..];
      var first := FirstIndex(mixes, chn, mixes.Length);
      var count := RunLengthAt(mixes, chn, first, mixes.Length);
      if line < count {
        ShiftOut(mixes, first + line, BlankMix);
        if WellFormed(before) {
          DeletePreservesLayout(before, mixes.Length, chn, line, BlankMix);
        }
      }
    }

    /** deleteMixes: the whole mix list is zeroed. */
    method DeleteMixes()
      modifies mixes
      ensures mixes[..] == Cleared(old(mixes[..]), BlankMix)
      ensures WellFormed(mixes[..])
      ensures old(Valid()) ==> Valid()
      ensures forall k: nat :: First(mixes[..], k, mixes.Length) == 0 && Count(mixes[..], k, mixes.Length) == 0
    {
      Fill(mixes, BlankMix);
      forall k: nat ensures First(mixes[..], k, mixes.Length) == 0 && Count(mixes[..], k, mixes.Length) == 0 {
        ClearedIsEmpty(mixes[..], BlankMix, k);
      }
      ClearedIsEmpty(mixes[..], BlankMix, 0);
    }

    // -------------------------------------------------------------------
    // Global variables

    /** getGlobalVariable: the value, or None (nil) outside the table. */
    method GetGlobalVariable(idx: nat, phase: nat) returns (r: Option<int>)
      requires Shaped()
      ensures r.Some? <==> phase < MaxFlightModes && idx < MaxGvars
      ensures r.Some? ==> r.value == gvars[phase, idx]
      ensures GvarsInRange() && r.Some? ==> -GvarMax <= r.value <= GvarMax
    {
      if phase < MaxFlightModes && idx < MaxGvars {
        r := Some(gvars[phase, idx]);
      } else {
        r := None;
      }
    }

    /** setGlobalVariable: writes (and marks the model for saving) only
        inside the table and the admitted range. */
    method SetGlobalVariable(idx: nat, phase: nat, value: int)
      requires Shaped()
      modifies gvars, this`dirty
      ensures GvarWritable(phase, idx, value) ==> gvars[phase, idx] == value && dirty
      ensures !GvarWritable(phase, idx, value) ==> dirty == old(dirty)
      ensures forall p, i :: 0 <= p < gvars.Length0 && 0 <= i < gvars.Length1 && (p, i) != (phase, idx) ==>
                gvars[p, i] == old(gvars[p, i])
      ensures !GvarWritable(phase, idx, value) ==> unchanged(gvars)
      ensures old(GvarsInRange()) ==> GvarsInRange()
    {
      if GvarWritable(phase, idx, value) {
        gvars[phase, idx] := value;
        dirty := true;
      }
    }
  }

  // ---------------------------------------------------------------------
  // The input scans as written

  /** getInputsCount as written: the count can never exceed MaxInputs. When
      the last slot the scans look at is free, it is the whole-list count. */
  function InputsCountAsWritten(s: seq<Slot<InputLine>>, chn: nat): (n: nat)
    requires MaxInputs <= |s|
    ensures n <= MaxInputs
    ensures !Live(s[MaxInputs - 1]) ==> n == Count(s, chn, |s|)
  {
    assert !Live(s[MaxInputs - 1]) ==> Count(s, chn, MaxInputs) == Count(s, chn, |s|) by {
      if !Live(s[MaxInputs - 1]) {
        ScanBoundIrrelevant(s, chn, MaxInputs);
      }
    }
    Count(s, chn, MaxInputs)
  }

  /** getInput as written: no line at or past MaxInputs is ever returned. */
  function GetInputAsWritten(s: seq<Slot<InputLine>>, chn: nat, line: nat): (r: Option<Slot<InputLine>>)
    requires MaxInputs <= |s|
    ensures r.Some? <==> line < InputsCountAsWritten(s, chn)
    ensures r.Some? ==> line < MaxInputs
    ensures !Live(s[MaxInputs - 1]) ==> r == Get(s, chn, line, |s|)
  {
    assert !Live(s[MaxInputs - 1]) ==> Get(s, chn, line, MaxInputs) == Get(s, chn, line, |s|) by {
      if !Live(s[MaxInputs - 1]) {
        GetBoundIrrelevant(s, chn, line, MaxInputs);
      }
    }
    Get(s, chn, line, MaxInputs)
  }

  /** deleteInput as written: no line at or past MaxInputs is ever deleted. */
  function DeleteInputAsWritten(s: seq<Slot<InputLine>>, chn: nat, line: nat): (r: Option<seq<Slot<InputLine>>>)
    requires MaxInputs <= |s|
    ensures r.Some? <==> line < InputsCountAsWritten(s, chn)
    ensures r.Some? ==> line < MaxInputs
    ensures !Live(s[MaxInputs - 1]) ==> r == DeleteLine(s, |s|, chn, line, BlankInput)
  {
    assert !Live(s[MaxInputs - 1]) ==>
             DeleteLine(s, MaxInputs, chn, line, BlankInput) == DeleteLine(s, |s|, chn, line, BlankInput) by {
      if !Live(s[MaxInputs - 1]) {
        DeleteLineBoundIrrelevant(s, MaxInputs, chn, line, BlankInput);
      }
    }
    DeleteLine(s, MaxInputs, chn, line, BlankInput)
  }

  /** insertInput with its scans as written: both stop at MaxInputs,
      although the input list holds MaxExpos slots. The guard is the one of
      the corrected insert, with the count as written. */
  function InsertInputAsWritten(s: seq<Slot<InputLine>>, chn: nat, line: nat, source: int, fields: InputLine)
    : (r: Option<seq<Slot<InputLine>>>)
    requires MaxInputs <= |s|
    ensures r.Some? <==> chn < MaxInputs && LiveCount(s) < |s| && line <= InputsCountAsWritten(s, chn)
    ensures !Live(s[MaxInputs - 1]) ==> r == InsertLine(s, |s|, MaxInputs, chn, line, source, fields)
  {
    assert !Live(s[MaxInputs - 1]) ==>
             InsertLine(s, MaxInputs, MaxInputs, chn, line, source, fields) == InsertLine(s, |s|, MaxInputs, chn, line, source, fields) by {
      if !Live(s[MaxInputs - 1]) {
        InsertLineBoundIrrelevant(s, MaxInputs, MaxInputs, chn, line, source, fields);
      }
    }
    InsertLine(s, MaxInputs, MaxInputs, chn, line, source, fields)
  }

  /** With MaxInputs lines on input 0, the scan for input 1 finds no slot
      below MaxInputs, falls back to position 0, and the new line of input 1
      lands in front of the lines of input 0: the key order breaks. Scanning
      the whole list finds position MaxInputs instead. */
  lemma InputScanBoundCounterexample()
    ensures var row := Slot(0, 1, InputLine("", 100, 0, 0));
            var s := seq(MaxExpos, i => if i < MaxInputs then row else BlankInput);
            var r := InsertInputAsWritten(s, 1, 0, 1, row.body);
            && WellFormed(s)
            && r.Some?
            && !WellFormed(r.value)
            && First(s, 1, |s|) == MaxInputs
  {
    var row := Slot(0, 1, InputLine("", 100, 0, 0));
    var s := seq(MaxExpos, i => if i < MaxInputs then row else BlankInput);
    assert forall j :: 0 <= j < MaxInputs ==> !EndsScan(s[j], 1);
    assert First(s, 1, MaxInputs) == 0;
    assert !Live(s[MaxExpos - 1]);
    assert Count(s, 1, MaxInputs) == 0;
    var x := Slot(1, 1, row.body);
    var t := Spliced(s, 0, x);
    SplicedAt(s, 0, x);
    assert t[0] == x && t[1] == row;
    assert EndsScan(s[MaxInputs], 1);
  }

  /** With 40 lines on input 0 (reachable through the insert as written,
      which accepts line 32 of input 0 once it has 32 lines), the scans as
      written see only 32 of them: count, get and delete all disagree with
      the whole-list scans. */
  lemma InputReadScanBoundCounterexample()
    ensures var row := Slot(0, 1, InputLine("", 100, 0, 0));
            var s := seq(MaxExpos, i => if i < 40 then row else BlankInput);
            && WellFormed(s)
            && InputsCountAsWritten(s, 0) == MaxInputs
            && Count(s, 0, |s|) == 40 == |Group(s, 0)|
            && GetInputAsWritten(s, 0, 35).None?
            && Get(s, 0, 35, |s|) == Some(row)
            && DeleteInputAsWritten(s, 0, 35).None?
            && DeleteLine(s, |s|, 0, 35, BlankInput).Some?
  {
    var row := Slot(0, 1, InputLine("", 100, 0, 0));
    var s := seq(MaxExpos, i => if i < 40 then row else BlankInput);
    forall i, j | 0 <= i < j < |s| && Live(s[j]) ensures Live(s[i]) && s[i].key <= s[j].key {
      assert j < 40;
    }
    assert forall j :: 0 <= j < 40 ==> InGroup(s[j], 0);
    CountOfLeadingRun(s, 0, 40, MaxInputs);
    CountOfLeadingRun(s, 0, 40, |s|);
    CountIsGroupSize(s, 0);
  }
}
