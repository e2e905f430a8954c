/** The photo-selection screen: the chosen frame fixes how many photos may
    be picked, and clicking a photo toggles its id in an ordered selection
    list. The two-strip frame places every photo twice. */
module Choose {
  import opened Wrappers
  import opened Seqs

  /** The frame whose layout holds every chosen photo twice. */
  const Strip: string := "Stripx2"

  /** Number of photos each known frame takes. */
  const MaxSelections: map<string, nat> := map[
    "Stripx2" := 8,
    "2cut-x2" := 2,
    "3-cutx2" := 3,
    "4-cutx2" := 4,
    "4.1-cutx2" := 4,
    "5-cutx2" := 5,
    "6-cutx2" := 6
  ]

  datatype Selection = Selection(frame: Option<string>, max: nat, chosen: seq<int>)

  /** Before the stored frame is read: no frame and nothing may be picked. */
  const Initial: Selection := Selection(None, 0, [])

  /** The maximum after one pass of the frame effect: a known frame sets
      its own count, anything else keeps the current one. */
  function MaxFor(frame: Option<string>, current: nat): nat
  {
    if frame.Some? && frame.value in MaxSelections then MaxSelections[frame.value] else current
  }

  /** One run of the frame effect. The maximum is computed from the frame
      the effect's closure saw, before the stored frame is written. */
  function FrameEffect(s: Selection, stored: Option<string>): Selection
  {
    s.(frame := if stored.Some? then stored else s.frame, max := MaxFor(s.frame, s.max))
  }

  predicate IsStrip(s: Selection)
  {
    s.frame == Some(Strip)
  }

  /** `handlePhotoClick`. */
  function Click(s: Selection, id: int): (r: Selection)
    ensures r.frame == s.frame && r.max == s.max
    ensures id !in s.chosen && |s.chosen| < s.max ==>
              && |r.chosen| == |s.chosen| + (if IsStrip(s) then 2 else 1)
              && r.chosen[..|s.chosen|] == s.chosen
              && forall i :: |s.chosen| <= i < |r.chosen| ==> r.chosen[i] == id
    ensures id in s.chosen ==>
              && id !in r.chosen
              && |r.chosen| < |s.chosen|
              && (forall i :: 0 <= i < |r.chosen| ==> r.chosen[i] in s.chosen)
              && (forall i :: 0 <= i < |s.chosen| && s.chosen[i] != id ==> s.chosen[i] in r.chosen)
    ensures id !in s.chosen && |s.chosen| >= s.max ==> r == s
  {
    if id !in s.chosen && |s.chosen| < s.max then
      s.(chosen := s.chosen + if IsStrip(s) then [id, id] else [id])
    else
      s.(chosen := RemoveAll(s.chosen, id))
  }

  /** "Continue" is enabled exactly when the selection is full. */
  predicate ContinueEnabled(s: Selection)
  {
    |s.chosen| == s.max
  }

  /** The frame effect runs twice: the first pass still sees no frame and
      leaves the maximum at 0; the second sets the frame's own count, or
      keeps 0 for an unknown frame. */
  lemma FrameSettles(f: string)
    ensures FrameEffect(Initial, Some(f)).max == 0
    ensures FrameEffect(FrameEffect(Initial, Some(f)), Some(f)).frame == Some(f)
    ensures FrameEffect(FrameEffect(Initial, Some(f)), Some(f)).max ==
              if f in MaxSelections then MaxSelections[f] else 0
  {
  }

  /** Clicking a photo that is not selected while there is room, then
      clicking it again, restores the selection. */
  lemma ClickTwiceRestores(s: Selection, id: int)
    requires id !in s.chosen && |s.chosen| < s.max
    ensures Click(Click(s, id), id) == s
  {
    var added := if IsStrip(s) then [id, id] else [id];
    RemoveAllConcat(s.chosen, added, id);
    assert RemoveAll(added, id) == [];
  }

  /** A full selection refuses new photos: only deselecting changes it. */
  lemma FullSelectionRefuses(s: Selection, id: int)
    requires ContinueEnabled(s) && id !in s.chosen
    ensures Click(s, id) == s
  {
  }

  /** The strip frame's list: consecutive equal pairs with distinct ids. */
  ghost predicate Paired(s: seq<int>)
    decreases |s|
  {
    |s| == 0 || (|s| >= 2 && s[0] == s[1] && s[0] !in s[2..] && Paired(s[2..]))
  }

  lemma {:induction false} PairedEven(s: seq<int>)
    requires Paired(s)
    ensures |s| % 2 == 0
    decreases |s|
  {
    if |s| > 0 {
      PairedEven(s[2..]);
    }
  }

  /** In the strip frame every selected id occurs exactly twice. */
  lemma {:induction false} PairedTwice(s: seq<int>, x: int)
    requires Paired(s)
    ensures x in s ==> multiset(s)[x] == 2
    ensures x !in s ==> multiset(s)[x] == 0
    decreases |s|
  {
    if |s| > 0 {
      assert s == [s[0], s[1]] + s[2..];
      PairedTwice(s[2..], x);
    }
  }

  lemma {:induction false} PairedAppend(s: seq<int>, id: int)
    requires Paired(s) && id !in s
    ensures Paired(s + [id, id])
    decreases |s|
  {
    if |s| == 0 {
      assert s + [id, id] == [id, id];
      assert [id, id][2..] == [];
    } else {
      var t := s + [id, id];
      assert t[2..] == s[2..] + [id, id];
      PairedAppend(s[2..], id);
      assert t[0] !in t[2..];
    }
  }

  lemma {:induction false} PairedRemove(s: seq<int>, id: int)
    requires Paired(s)
    ensures Paired(RemoveAll(s, id))
    decreases |s|
  {
    if |s| > 0 {
      assert s == [s[0], s[1]] + s[2..];
      RemoveAllConcat([s[0], s[1]], s[2..], id);
      PairedRemove(s[2..], id);
      if s[0] != id {
        var rest := RemoveAll(s[2..], id);
        assert RemoveAll([s[0], s[1]], id) == [s[0], s[1]];
        var r := [s[0], s[1]] + rest;
        assert r[2..] == rest;
        assert s[0] !in rest;
      } else {
        assert RemoveAll([s[0], s[1]], id) == [];
        assert [] + RemoveAll(s[2..], id) == RemoveAll(s[2..], id);
      }
    }
  }

  /** What the screen keeps true: no more photos than the frame takes, no
      id twice on ordinary frames, and pairs of one id on the strip frame. */
  ghost predicate Valid(s: Selection)
  {
    && |s.chosen| <= s.max
    && if IsStrip(s) then Paired(s.chosen) && s.max % 2 == 0 else NoDup(s.chosen)
  }

  lemma FrameEffectValid(stored: Option<string>)
    ensures Valid(FrameEffect(Initial, stored))
    ensures Valid(FrameEffect(FrameEffect(Initial, stored), stored))
  {
  }

  /** Every click keeps the selection valid. */
  lemma ClickPreservesValid(s: Selection, id: int)
    requires Valid(s)
    ensures Valid(Click(s, id))
  {
    if id !in s.chosen && |s.chosen| < s.max {
      if IsStrip(s) {
        PairedEven(s.chosen);
        PairedAppend(s.chosen, id);
      } else {
        AppendFreshNoDup(s.chosen, id);
      }
    } else if IsStrip(s) {
      PairedRemove(s.chosen, id);
    } else {
      RemoveAllNoDup(s.chosen, id);
    }
  }
}
