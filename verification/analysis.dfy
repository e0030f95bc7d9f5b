/**
 * The analysis state of the `DDCS_GUI` object (DDCS.py:9-17): the two
 * per-window registries of file paths, the last computed result, and the
 * operations the buttons trigger on them. Dialogs are replaced by
 * parameters (the chosen paths, the selected positions, the chosen file
 * name) and warnings are returned as data.
 */
module Analysis {
  import opened Wrappers
  import opened Spectra
  import opened Consistency
  import opened FinalCalc

  /** Which registry an operation works on: `measurements` or `backgrounds`. */
  datatype Role = Measurement | Background

  /** What the "Calculate final" button ends in. */
  datatype CalcOutcome =
    | NoWindow              // the window field does not hold an integer: nothing happens
    | MissingData           // "Measurements or backgrounds missing."
    | Failed(error: Error)  // a read or a numpy operation raised
    | Computed(result: FinalResult)

  /** What the "Save final to TXT" button ends in. */
  datatype SaveOutcome =
    | NoResult                                 // "No result to save."
    | Cancelled                                // the save dialog returned no file name
    | Written(file: Path, table: seq<seq<real>>)

  /** The paths of s at the positions from i on that are not in drop, in their original order. */
  function KeptFrom(s: seq<Path>, drop: set<int>, i: nat): seq<Path>
    requires i <= |s|
    decreases |s| - i
  {
    if i == |s| then [] else (if i in drop then [] else [s[i]]) + KeptFrom(s, drop, i + 1)
  }

  /** s without the positions in drop. */
  function Kept(s: seq<Path>, drop: set<int>): seq<Path>
  {
    KeptFrom(s, drop, 0)
  }

  /** Positions below every dropped one are kept as they are. */
  lemma {:induction false} KeptPrefix(s: seq<Path>, drop: set<int>, i: nat, j: nat)
    requires i <= j <= |s|
    requires forall k :: k in drop ==> k >= j
    ensures KeptFrom(s, drop, i) == s[i..j] + KeptFrom(s, drop, j)
    decreases j - i
  {
    if i < j {
      KeptPrefix(s, drop, i + 1, j);
      assert i !in drop;
      assert KeptFrom(s, drop, i) == [s[i]] + KeptFrom(s, drop, i + 1);
      assert s[i..j] == [s[i]] + s[i + 1..j];
      assert [s[i]] + (s[i + 1..j] + KeptFrom(s, drop, j)) == ([s[i]] + s[i + 1..j]) + KeptFrom(s, drop, j);
    }
  }

  /** Dropping a position before i does not change what is kept from i on. */
  lemma {:induction false} KeptFromIgnores(s: seq<Path>, drop: set<int>, p: int, i: nat)
    requires p < i <= |s|
    ensures KeptFrom(s, drop + {p}, i) == KeptFrom(s, drop, i)
    decreases |s| - i
  {
    if i < |s| {
      KeptFromIgnores(s, drop, p, i + 1);
    }
  }

  /**
   * Popping position p from what is kept, when every position dropped so far
   * is above p, is the same as dropping p too: why popping in reverse order
   * removes exactly the selected positions.
   */
  lemma {:induction false} PopBelowDropped(s: seq<Path>, drop: set<int>, p: nat)
    requires p < |s|
    requires forall k :: k in drop ==> k > p
    ensures p < |Kept(s, drop)|
    ensures Kept(s, drop)[..p] + Kept(s, drop)[p + 1..] == Kept(s, drop + {p})
  {
    var rest := KeptFrom(s, drop, p + 1);
    KeptPrefix(s, drop, 0, p);
    assert s[0..p] == s[..p];
    assert p !in drop;
    assert KeptFrom(s, drop, p) == [s[p]] + rest;
    var cur := Kept(s, drop);
    assert cur == s[..p] + ([s[p]] + rest);
    assert |cur| == p + 1 + |rest|;
    assert cur[..p] == s[..p];
    assert cur[p + 1..] == rest;
    KeptPrefix(s, drop + {p}, 0, p);
    KeptFromIgnores(s, drop, p, p + 1);
    assert KeptFrom(s, drop + {p}, p) == rest;
  }

  /** The positions a listbox reports as selected: ascending, each once. */
  predicate Ascending(sel: seq<nat>)
  {
    forall a, b :: 0 <= a < b < |sel| ==> sel[a] < sel[b]
  }

  /** The selected positions as a set. */
  function Positions(sel: seq<nat>): set<int>
  {
    set k: int | k in sel
  }

  /**
   * `for i in reversed(sel): lst.pop(i)` on a copy of one list: exactly the
   * selected positions go, one path per selected position.
   */
  method PopReversed(s: seq<Path>, sel: seq<nat>) returns (cur: seq<Path>)
    requires Ascending(sel)
    requires forall k :: 0 <= k < |sel| ==> sel[k] < |s|
    ensures cur == Kept(s, Positions(sel))
    ensures |cur| == |s| - |sel|
  {
    cur := s;
    KeptPrefix(s, {}, 0, |s|);
    assert s[0..|s|] == s;
    assert Positions(sel[|sel|..]) == {};
    var i := |sel|;
    while i > 0
      invariant 0 <= i <= |sel|
      invariant cur == Kept(s, Positions(sel[i..]))
      invariant |cur| == |s| - (|sel| - i)
    {
      i := i - 1;
      var p := sel[i];
      PopBelowDropped(s, Positions(sel[i + 1..]), p);
      assert Positions(sel[i..]) == Positions(sel[i + 1..]) + {p} by {
        assert sel[i..] == [p] + sel[i + 1..];
      }
      cur := cur[..p] + cur[p + 1..];
    }
    assert sel[0..] == sel;
  }

  class Engine {
    /** `self.measurements` and `self.backgrounds`: window -> paths; a missing window holds no paths. */
    var measurements: map<int, seq<Path>>
    var backgrounds: map<int, seq<Path>>
    /** `self.last_result`; `None` while the attribute does not exist yet. */
    var lastResult: Option<seq<seq<real>>>

    /** The registry of one role. */
    function Store(role: Role): map<int, seq<Path>>
      reads this
    {
      if role == Measurement then measurements else backgrounds
    }

    /** `store.get(window, [])`: the paths registered for a role and a window. */
    function Files(role: Role, w: int): seq<Path>
      reads this
    {
      if w in Store(role) then Store(role)[w] else []
    }

    constructor ()
      ensures forall role, w :: Files(role, w) == []
      ensures lastResult == None
    {
      measurements := map[];
      backgrounds := map[];
      lastResult := None;
    }

    /** Replaces the paths of one role and window. */
    method SetFiles(role: Role, w: int, paths: seq<Path>)
      modifies this
      ensures Store(role) == old(Store(role))[w := paths]
      ensures role == Measurement ==> backgrounds == old(backgrounds)
      ensures role == Background ==> measurements == old(measurements)
      ensures lastResult == old(lastResult)
    {
      if role == Measurement {
        measurements := measurements[w := paths];
      } else {
        backgrounds := backgrounds[w := paths];
      }
    }

    /**
     * `_load_files`: nothing happens without a window or without chosen
     * paths; otherwise the paths are appended to that window's list for that
     * role, and the whole list is checked for consistency. The list stays
     * extended even when the check raises.
     */
    method LoadFiles(role: Role, window: Option<int>, chosen: seq<Path>, read: Reader)
      returns (r: Result<seq<Flag>, Error>)
      modifies this
      ensures lastResult == old(lastResult)
      ensures window.None? || chosen == [] ==>
        measurements == old(measurements) && backgrounds == old(backgrounds) && r == Ok([])
      ensures window.Some? && chosen != [] ==>
        && Store(role) == old(Store(role))[window.value := old(Files(role, window.value)) + chosen]
        && r == Check(read, Files(role, window.value), DefaultThreshold)
      ensures forall rl, w ::
                Files(rl, w) == if window.Some? && chosen != [] && rl == role && w == window.value
                                then old(Files(rl, w)) + chosen
                                else old(Files(rl, w))
    {
      if window.None? || chosen == [] {
        return Ok([]);
      }
      var w := window.value;
      var updated := Files(role, w) + chosen;
      SetFiles(role, w, updated);
      r := ConsistencyCheck(read, updated, DefaultThreshold);
    }

    /**
     * `_remove_selected`: the selected positions are popped from the
     * largest down, so each pop leaves the positions still to be popped in
     * place. The rest keeps its order; other windows and the other role are
     * untouched.
     */
    method RemoveSelected(role: Role, window: Option<int>, sel: seq<nat>)
      requires window.Some? ==> Ascending(sel)
      requires window.Some? ==> forall k :: 0 <= k < |sel| ==> sel[k] < |Files(role, window.value)|
      modifies this
      ensures lastResult == old(lastResult)
      ensures window.None? || sel == [] ==>
        measurements == old(measurements) && backgrounds == old(backgrounds)
      ensures window.Some? ==>
        |Files(role, window.value)| == |old(Files(role, window.value))| - |sel|
      ensures forall rl, w ::
                Files(rl, w) == if window.Some? && rl == role && w == window.value
                                then Kept(old(Files(rl, w)), Positions(sel))
                                else old(Files(rl, w))
    {
      if window.None? || sel == [] {
        if window.Some? {
          assert Positions(sel) == {};
          KeptPrefix(Files(role, window.value), {}, 0, |Files(role, window.value)|);
          assert Files(role, window.value)[0..|Files(role, window.value)|] == Files(role, window.value);
        }
        return;
      }
      var w := window.value;
      var cur := PopReversed(Files(role, w), sel);
      SetFiles(role, w, cur);
    }

    /**
     * `calculate_final`: refuses without a window, and with a warning when
     * either role has no files for it; a read or numpy failure leaves
     * `last_result` as it was; otherwise `last_result` becomes the table.
     */
    method CalculateFinal(window: Option<int>, read: Reader) returns (outcome: CalcOutcome)
      modifies this`lastResult
      ensures window.None? ==> outcome == NoWindow
      ensures window.Some? && (Files(Measurement, window.value) == [] || Files(Background, window.value) == []) ==>
        outcome == MissingData
      ensures outcome.Computed? ==>
        && window.Some? && Files(Measurement, window.value) != [] && Files(Background, window.value) != []
        && FinalFor(read, Files(Measurement, window.value), Files(Background, window.value)) == Ok(outcome.result)
        && lastResult == Some(outcome.result.table)
      ensures outcome.Failed? ==>
        && window.Some? && Files(Measurement, window.value) != [] && Files(Background, window.value) != []
        && FinalFor(read, Files(Measurement, window.value), Files(Background, window.value)) == Err(outcome.error)
      ensures window.Some? && Files(Measurement, window.value) != [] && Files(Background, window.value) != [] ==>
        outcome == (match FinalFor(read, Files(Measurement, window.value), Files(Background, window.value))
                    case Ok(v) => Computed(v)
                    case Err(e) => Failed(e))
      ensures !outcome.Computed? ==> lastResult == old(lastResult)
    {
      if window.None? {
        return NoWindow;
      }
      var w := window.value;
      var measFiles := Files(Measurement, w);
      var bkgFiles := Files(Background, w);
      if measFiles == [] || bkgFiles == [] {
        return MissingData;
      }
      var res := FinalFor(read, measFiles, bkgFiles);
      if res.Err? {
        return Failed(res.error);
      }
      lastResult := Some(res.value.table);
      outcome := Computed(res.value);
    }

    /**
     * `save_final`: warns when nothing has been computed yet; an empty file
     * name from the dialog writes nothing; otherwise the last table is what
     * gets written.
     */
    method SaveFinal(fname: Path) returns (s: SaveOutcome)
      ensures s == NoResult <==> lastResult.None?
      ensures s == Cancelled <==> lastResult.Some? && fname == ""
      ensures s.Written? <==> lastResult.Some? && fname != ""
      ensures s.Written? ==> s.file == fname && s.table == lastResult.value
    {
      if lastResult.None? {
        return NoResult;
      }
      if fname == "" {
        return Cancelled;
      }
      s := Written(fname, lastResult.value);
    }
  }
}
