/**
 * The application shell: the default configuration, the saved-preset list
 * (save appends a snapshot of the current configuration, delete filters by
 * id) and the accuracy and feedback tip shown when a session finishes.
 */
module App {
  import opened Wrappers
  import opened Text
  import opened Types
  import opened MathUtils
  import opened Arith

  /** defaultConfig: a timed one-minute drill of three one-digit rows, addition only. */
  function DefaultConfig(): (c: PracticeConfig)
    ensures ValidConfig(c)
    ensures c.mode == Timed && c.operation == AddLess && c.sumsType == Addition
  {
    var c := PracticeConfig(Timed, AddLess, Addition, "1", 3, 1, 2.0, 5, 2, 1, 3, 1);
    assert Split("1", '-') == ["1"];
    assert DigitsValue("1") == 1;
    c
  }

  // ---------------------------------------------------------------------------
  // Preset list

  /** savedPresets.filter(p => p.id !== id). */
  function WithoutId(presets: seq<SavedPreset>, id: string): (r: seq<SavedPreset>)
    ensures forall p :: p in r <==> p in presets && p.id != id
    ensures |r| <= |presets|
  {
    if presets == [] then []
    else (if presets[0].id != id then [presets[0]] else []) + WithoutId(presets[1..], id)
  }

  /** Filtering a list is filtering its two halves: the kept presets stay in their order. */
  lemma {:induction false} WithoutIdConcat(a: seq<SavedPreset>, b: seq<SavedPreset>, id: string)
    ensures WithoutId(a + b, id) == WithoutId(a, id) + WithoutId(b, id)
  {
    if a != [] {
      assert (a + b)[1..] == a[1..] + b;
      WithoutIdConcat(a[1..], b, id);
    } else {
      assert a + b == b;
    }
  }

  /** Each preset is kept as many times as it occurs, unless it carries the deleted id. */
  lemma {:induction false} WithoutIdMultiplicity(presets: seq<SavedPreset>, id: string, p: SavedPreset)
    ensures multiset(WithoutId(presets, id))[p] == if p.id == id then 0 else multiset(presets)[p]
  {
    if presets != [] {
      var head := if presets[0].id != id then [presets[0]] else [];
      var rest := WithoutId(presets[1..], id);
      WithoutIdMultiplicity(presets[1..], id, p);
      assert WithoutId(presets, id) == head + rest;
      assert multiset(WithoutId(presets, id)) == multiset(head) + multiset(rest);
      assert presets == [presets[0]] + presets[1..];
      assert multiset(presets) == multiset([presets[0]]) + multiset(presets[1..]);
    }
  }

  /** Deleting an id no preset carries leaves the list as it was. */
  lemma {:induction false} WithoutAbsentId(presets: seq<SavedPreset>, id: string)
    requires forall i :: 0 <= i < |presets| ==> presets[i].id != id
    ensures WithoutId(presets, id) == presets
  {
    if presets != [] {
      WithoutAbsentId(presets[1..], id);
      assert presets == [presets[0]] + presets[1..];
    }
  }

  /** Deleting the same id twice is deleting it once. */
  lemma WithoutIdIdempotent(presets: seq<SavedPreset>, id: string)
    ensures WithoutId(WithoutId(presets, id), id) == WithoutId(presets, id)
  {
    var r := WithoutId(presets, id);
    forall i | 0 <= i < |r|
      ensures r[i].id != id
    {
      assert r[i] in r;
    }
    WithoutAbsentId(r, id);
  }

  /** Deleting a just-saved preset by its fresh id gives back the list before the save. */
  lemma DeleteUndoesSave(presets: seq<SavedPreset>, id: string, name: string, config: PracticeConfig)
    requires forall i :: 0 <= i < |presets| ==> presets[i].id != id
    ensures WithoutId(presets + [SavedPreset(id, name, config)], id) == presets
  {
    WithoutIdConcat(presets, [SavedPreset(id, name, config)], id);
    WithoutAbsentId(presets, id);
  }

  // ---------------------------------------------------------------------------
  // Results

  /**
   * Math.round((correct / total) * 100) || 0: the percentage rounded half up,
   * and 0 when nothing was answered (0 / 0 is NaN).
   */
  function Accuracy(correct: nat, total: nat): (r: nat)
    requires correct <= total
    ensures r <= 100
    ensures total == 0 ==> r == 0
    ensures total > 0 ==> (2 * r - 1) * total <= 200 * correct < (2 * r + 1) * total
  {
    if total == 0 then 0
    else
      var r := (200 * correct + total) / (2 * total);
      RoundedPercent(correct, total, r);
      r
  }

  lemma RoundedPercent(correct: nat, total: nat, r: nat)
    requires 0 < total && correct <= total && r == (200 * correct + total) / (2 * total)
    ensures r <= 100
    ensures (2 * r - 1) * total <= 200 * correct < (2 * r + 1) * total
  {
    var x := 200 * correct + total;
    FloorDiv(x, 2 * total);
    assert r * (2 * total) <= x < (r + 1) * (2 * total);
    assert r * (2 * total) == (2 * r) * total;
    assert (r + 1) * (2 * total) == (2 * r) * total + 2 * total;
    assert (2 * r - 1) * total == (2 * r) * total - total;
    assert (2 * r + 1) * total == (2 * r) * total + total;
    MulLe(correct, total, 200);
    assert 101 * (2 * total) == 202 * total;
    MulCancelLt(r, 101, 2 * total);
  }

  /** A session answered entirely correctly scores 100. */
  lemma AllCorrectIsHundred(total: nat)
    requires total > 0
    ensures Accuracy(total, total) == 100
  {
    var r := Accuracy(total, total);
    assert (2 * r - 1) * total <= 200 * total;
    if r < 100 {
      MulLe(2 * r + 1, 200, total);
    }
  }

  /** The tip without an advice service: praise above 80%, encouragement otherwise. */
  function FallbackTip(accuracy: nat): (tip: string)
    ensures tip == "Excellent work!" <==> accuracy > 80
    ensures tip == "Keep practicing!" <==> accuracy <= 80
  {
    if accuracy > 80 then "Excellent work!" else "Keep practicing!"
  }

  /** The tip shown: the advice service's reply when one is configured, the fallback otherwise. */
  function Tip(accuracy: nat, advice: Option<string>): (tip: string)
    ensures advice.Some? ==> tip == advice.value
    ensures advice.None? ==> tip == FallbackTip(accuracy)
  {
    match advice
    case Some(reply) => reply
    case None => FallbackTip(accuracy)
  }

  // ---------------------------------------------------------------------------
  // App state

  datatype View = ConfigView | PracticeView | ResultsView

  class AppState {
    var view: View
    var config: PracticeConfig
    var results: Option<DrillResult>
    var aiTip: string
    var savedPresets: seq<SavedPreset>

    constructor ()
      ensures view == ConfigView && config == DefaultConfig()
      ensures results == None && aiTip == [] && savedPresets == []
    {
      view := ConfigView;
      config := DefaultConfig();
      results := None;
      aiTip := [];
      savedPresets := [];
    }

    /** setConfig from the settings screen. */
    method SetConfig(c: PracticeConfig)
      modifies this`config
      ensures config == c
    {
      config := c;
    }

    /** Loading a preset: the configuration becomes the preset's snapshot. */
    method LoadPreset(preset: SavedPreset)
      modifies this`config
      ensures config == preset.config
    {
      config := preset.config;
    }

    /** handleSavePreset: append a snapshot of the current configuration under the given name. */
    method SavePreset(id: string, name: string)
      modifies this`savedPresets
      ensures |savedPresets| == |old(savedPresets)| + 1
      ensures savedPresets[..|old(savedPresets)|] == old(savedPresets)
      ensures savedPresets[|old(savedPresets)|] == SavedPreset(id, name, config)
    {
      var newPreset := SavedPreset(id, name, config);
      savedPresets := savedPresets + [newPreset];
    }

    /** handleDeletePreset: keep the presets whose id differs. */
    method DeletePreset(id: string)
      modifies this`savedPresets
      ensures savedPresets == WithoutId(old(savedPresets), id)
      ensures forall i :: 0 <= i < |savedPresets| ==> savedPresets[i].id != id
    {
      savedPresets := WithoutId(savedPresets, id);
      forall i | 0 <= i < |savedPresets|
        ensures savedPresets[i].id != id
      {
        assert savedPresets[i] in savedPresets;
      }
    }

    /**
     * handleFinish: show the results with the tip for their accuracy; advice
     * is the advice service's reply, None when no API key is configured.
     */
    method HandleFinish(res: DrillResult, advice: Option<string>)
      requires res.correct <= res.total
      modifies this`results, this`view, this`aiTip
      ensures results == Some(res) && view == ResultsView
      ensures aiTip == Tip(Accuracy(res.correct, res.total), advice)
    {
      results := Some(res);
      view := ResultsView;
      var accuracy := Accuracy(res.correct, res.total);
      aiTip := Tip(accuracy, advice);
    }
  }

  /** Saving the current configuration, changing it, then loading the new preset restores it field for field. */
  method SaveThenLoad(app: AppState, id: string, name: string, edited: PracticeConfig)
    modifies app
    ensures app.config == old(app.config)
    ensures app.savedPresets == old(app.savedPresets) + [SavedPreset(id, name, old(app.config))]
  {
    app.SavePreset(id, name);
    app.SetConfig(edited);
    app.LoadPreset(app.savedPresets[|app.savedPresets| - 1]);
  }
}
