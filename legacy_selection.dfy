/** Choosing the Gemini model when the legacy engine starts
    (recommendation.py, `RecommendationEngine.__init__`). */
module LegacySelection {
  import opened Wrappers
  import opened Text
  import opened Seqs

  /** A listed model: its name and, when the attribute exists, its
      supported generation methods. */
  datatype ModelInfo = ModelInfo(name: string, methods: Option<seq<string>>)

  const Priority: seq<string> := ["gemini-1.5-flash-8b", "gemini-1.5-flash", "gemini-1.0-pro-vision", "gemini-1.5-pro"]
  const DefaultModel := "gemini-1.5-flash"

  /** The attribute exists, is a non-empty list and names generateContent. */
  predicate GeneratesContent(m: ModelInfo) {
    m.methods.Some? && m.methods.value != [] && "generateContent" in m.methods.value
  }

  predicate IsFlash(m: ModelInfo) {
    GeneratesContent(m) && Contains(LowerStr(m.name), "flash")
  }

  predicate MatchesEntry(m: ModelInfo, entry: string) {
    GeneratesContent(m) && Contains(m.name, entry)
  }

  /** The first listed model that matches one priority entry. */
  function FirstMatch(entry: string, ms: seq<ModelInfo>): (r: Option<ModelInfo>)
    ensures r.Some? ==> r.value in ms && MatchesEntry(r.value, entry)
    ensures r.None? ==> forall k :: 0 <= k < |ms| ==> !MatchesEntry(ms[k], entry)
  {
    if ms == [] then None
    else if MatchesEntry(ms[0], entry) then Some(ms[0])
    else FirstMatch(entry, ms[1..])
  }

  /** The first priority entry, in order, that some model matches. */
  function PriorityChoice(entries: seq<string>, ms: seq<ModelInfo>): Option<string> {
    if entries == [] then None
    else
      match FirstMatch(entries[0], ms)
      case Some(m) => Some(m.name)
      case None => PriorityChoice(entries[1..], ms)
  }

  /** `selected_model`: the priority tier, then the first flash model, then
      the first model that generates content, then the default. A listing
      that raises gives the default. */
  function ChosenModel(models: Option<seq<ModelInfo>>): string {
    if models.None? then DefaultModel
    else
      var ms := models.value;
      match PriorityChoice(Priority, ms)
      case Some(name) => name
      case None =>
        var flash := Filter(ms, IsFlash);
        if flash != [] then flash[0].name
        else
          var content := Filter(ms, GeneratesContent);
          if content != [] then content[0].name else DefaultModel
  }

  /** The selection as the constructor runs it: nested loops over the
      priority list and the models, breaking at the first match, then the
      two list comprehensions. */
  method SelectModel(models: Option<seq<ModelInfo>>) returns (name: string)
    ensures name == ChosenModel(models)
  {
    if models.None? {
      return DefaultModel;
    }
    var ms := models.value;
    var selected: Option<string> := None;
    var i := 0;
    while i < |Priority| && selected.None?
      invariant 0 <= i <= |Priority|
      invariant PriorityChoice(Priority, ms) == if selected.Some? then selected else PriorityChoice(Priority[i..], ms)
      decreases |Priority| - i
    {
      assert Priority[i..][1..] == Priority[i + 1..];
      var found := ScanModels(Priority[i], ms);
      if found.Some? {
        selected := Some(found.value.name);
      }
      i := i + 1;
    }
    if selected.None? {
      assert Priority[i..] == [];
      var flash := Filter(ms, IsFlash);
      if flash != [] {
        selected := Some(flash[0].name);
      } else {
        var content := Filter(ms, GeneratesContent);
        selected := Some(if content != [] then content[0].name else DefaultModel);
      }
    }
    name := selected.value;
  }

  /** The inner loop: the first model that matches `entry`. */
  method ScanModels(entry: string, ms: seq<ModelInfo>) returns (found: Option<ModelInfo>)
    ensures found == FirstMatch(entry, ms)
  {
    for j := 0 to |ms|
      invariant FirstMatch(entry, ms) == FirstMatch(entry, ms[j..])
    {
      assert ms[j..][1..] == ms[j + 1..];
      if MatchesEntry(ms[j], entry) {
        return Some(ms[j]);
      }
    }
    return None;
  }

  // ---------------------------------------------------------------------------
  // What the selection promises

  lemma {:induction false} PriorityChoiceFound(entries: seq<string>, ms: seq<ModelInfo>)
    ensures PriorityChoice(entries, ms).Some? ==>
      exists k, e :: 0 <= k < |ms| && e in entries && MatchesEntry(ms[k], e) && PriorityChoice(entries, ms).value == ms[k].name
    ensures PriorityChoice(entries, ms).None? ==>
      forall k, e :: 0 <= k < |ms| && e in entries ==> !MatchesEntry(ms[k], e)
    decreases |entries|
  {
    if entries != [] {
      var rest := entries[1..];
      PriorityChoiceFound(rest, ms);
      var first := FirstMatch(entries[0], ms);
      if first.Some? {
        var k :| 0 <= k < |ms| && ms[k] == first.value;
        assert entries[0] in entries && MatchesEntry(ms[k], entries[0]) && PriorityChoice(entries, ms).value == ms[k].name;
      } else {
        assert PriorityChoice(entries, ms) == PriorityChoice(rest, ms);
        assert forall e :: e in rest ==> e in entries;
        forall k, e | 0 <= k < |ms| && e in entries && PriorityChoice(entries, ms).None?
          ensures !MatchesEntry(ms[k], e)
        {
          if e != entries[0] {
            assert e in rest;
          }
        }
      }
    }
  }

  /** The chosen name is that of a listed model that generates content, or
      the default; and whenever some listed model generates content, it is
      such a model's name. */
  lemma ChosenIsUsable(models: Option<seq<ModelInfo>>)
    ensures ChosenModel(models) == DefaultModel ||
      (models.Some? && exists k :: 0 <= k < |models.value| && GeneratesContent(models.value[k]) && models.value[k].name == ChosenModel(models))
    ensures models.Some? && (exists k :: 0 <= k < |models.value| && GeneratesContent(models.value[k])) ==>
      exists k :: 0 <= k < |models.value| && GeneratesContent(models.value[k]) && models.value[k].name == ChosenModel(models)
  {
    if models.Some? {
      var ms := models.value;
      PriorityChoiceFound(Priority, ms);
      if PriorityChoice(Priority, ms).None? {
        var flash := Filter(ms, IsFlash);
        var content := Filter(ms, GeneratesContent);
        if flash != [] {
          assert flash[0] in ms;
          var k :| 0 <= k < |ms| && ms[k] == flash[0];
        } else if content != [] {
          assert content[0] in ms;
          var k :| 0 <= k < |ms| && ms[k] == content[0];
        } else if exists k :: 0 <= k < |ms| && GeneratesContent(ms[k]) {
          var k :| 0 <= k < |ms| && GeneratesContent(ms[k]);
          assert ms[k] in content;
        }
      }
    }
  }

  /** With no model that generates content, or with a listing that fails,
      the default name is used. */
  lemma NothingUsableGivesDefault(models: Option<seq<ModelInfo>>)
    requires models.Some? ==> forall k :: 0 <= k < |models.value| ==> !GeneratesContent(models.value[k])
    ensures ChosenModel(models) == DefaultModel
  {
    if models.Some? {
      var ms := models.value;
      PriorityChoiceFound(Priority, ms);
      NothingSelected(ms, IsFlash);
      NothingSelected(ms, GeneratesContent);
    }
  }

  /** Priority order: when some model matches priority entry `i`, the
      choice matches an entry no later than `i`. */
  lemma {:induction false} PriorityIsRespected(entries: seq<string>, ms: seq<ModelInfo>, i: nat, k: nat)
    requires i < |entries| && k < |ms| && MatchesEntry(ms[k], entries[i])
    ensures PriorityChoice(entries, ms).Some?
    ensures exists j, m :: 0 <= j <= i && m in ms && MatchesEntry(m, entries[j]) && m.name == PriorityChoice(entries, ms).value
    decreases i
  {
    match FirstMatch(entries[0], ms)
    case Some(m) =>
      assert MatchesEntry(m, entries[0]);
    case None =>
      assert i != 0;
      assert entries[1..][i - 1] == entries[i];
      PriorityIsRespected(entries[1..], ms, i - 1, k);
      var j, m :| 0 <= j <= i - 1 && m in ms && MatchesEntry(m, entries[1..][j]) && m.name == PriorityChoice(entries[1..], ms).value;
      assert entries[j + 1] == entries[1..][j];
  }

  /** Without a priority match, the first flash model that generates
      content is preferred to any other model. */
  lemma FlashBeforeOthers(ms: seq<ModelInfo>, k: nat)
    requires forall i, e :: 0 <= i < |ms| && e in Priority ==> !MatchesEntry(ms[i], e)
    requires k < |ms| && IsFlash(ms[k])
    ensures IsFlash(Filter(ms, IsFlash)[0]) && ChosenModel(Some(ms)) == Filter(ms, IsFlash)[0].name
  {
    PriorityChoiceFound(Priority, ms);
    assert ms[k] in Filter(ms, IsFlash);
  }
}
