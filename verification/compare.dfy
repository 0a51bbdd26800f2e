/**
 * The language-comparison page's selection: between one and three language
 * ids, toggled by clicking a language card.
 */
module Compare {
  import opened Lists

  /** The languages selected when the page opens. */
  const InitialSelection: seq<string> := ["c", "cpp"]

  /** At most this many languages are compared side by side. */
  const MaxSelected := 3

  /** `toggleLanguage`: deselect a selected language unless it is the only one; select another unless three are selected. */
  function ToggleLanguage(selected: seq<string>, langId: string): (r: seq<string>)
    ensures langId in selected && |selected| > 1 ==> r == Remove(selected, langId)
    ensures langId in selected && |selected| <= 1 ==> r == selected
    ensures langId !in selected && |selected| < MaxSelected ==> r == selected + [langId]
    ensures langId !in selected && |selected| >= MaxSelected ==> r == selected
    ensures r != selected ==> (langId in r <==> langId !in selected)
  {
    if langId in selected then
      if |selected| > 1 then Remove(selected, langId) else selected
    else if |selected| < MaxSelected then selected + [langId]
    else selected
  }

  /** The selection the page keeps: one to three languages, none twice. */
  predicate Valid(selected: seq<string>) {
    1 <= |selected| <= MaxSelected && NoDuplicates(selected)
  }

  lemma InitialValid()
    ensures Valid(InitialSelection)
  {
  }

  /** Every toggle keeps the selection valid. */
  lemma ToggleKeepsValid(selected: seq<string>, langId: string)
    requires Valid(selected)
    ensures Valid(ToggleLanguage(selected, langId))
  {
    if langId in selected {
      RemoveKeepsNoDuplicates(selected, langId);
    } else if |selected| < MaxSelected {
      AppendKeepsNoDuplicates(selected, langId);
    }
  }

  /** The selection after a series of clicks. */
  function ToggleAll(selected: seq<string>, clicks: seq<string>): (r: seq<string>)
    ensures Valid(selected) ==> Valid(r)
    decreases |clicks|
  {
    if |clicks| == 0 then selected
    else
      ToggleKeepsValidIfValid(selected, clicks[0]);
      ToggleAll(ToggleLanguage(selected, clicks[0]), clicks[1..])
  }

  /** `ToggleKeepsValid` for a selection that may not be valid. */
  lemma ToggleKeepsValidIfValid(selected: seq<string>, langId: string)
    ensures Valid(selected) ==> Valid(ToggleLanguage(selected, langId))
  {
    if Valid(selected) {
      ToggleKeepsValid(selected, langId);
    }
  }

  /** Whatever the user clicks, the page compares one to three distinct languages. */
  lemma ReachableValid(clicks: seq<string>)
    ensures Valid(ToggleAll(InitialSelection, clicks))
  {
    InitialValid();
  }

  /** Deselecting the only selected language is ignored. */
  lemma LastLanguageStays(langId: string)
    ensures ToggleLanguage([langId], langId) == [langId]
  {
  }

  /** Selecting a fourth language is ignored. */
  lemma FourthLanguageRefused(selected: seq<string>, langId: string)
    requires Valid(selected) && |selected| == MaxSelected && langId !in selected
    ensures ToggleLanguage(selected, langId) == selected
  {
  }

  /** Deselecting removes that language only, keeping the others in their order. */
  lemma DeselectKeepsOrder(before: seq<string>, langId: string, after: seq<string>)
    requires langId !in before && langId !in after
    requires |before| + |after| >= 1
    ensures ToggleLanguage(before + [langId] + after, langId) == before + after
  {
    var s := before + [langId] + after;
    assert langId in s by {
      assert s[|before|] == langId;
    }
    RemoveAppend(before + [langId], after, langId);
    RemoveAppended(before, langId);
  }

  /** From the initial selection, adding `rust` then removing `c` leaves `cpp` first. */
  lemma ExampleClicks()
    ensures ToggleAll(InitialSelection, ["rust", "c"]) == ["cpp", "rust"]
  {
    assert ToggleLanguage(InitialSelection, "rust") == ["c", "cpp", "rust"];
    assert ["c", "cpp", "rust"] == [] + ["c"] + ["cpp", "rust"];
    DeselectKeepsOrder([], "c", ["cpp", "rust"]);
    assert ["rust", "c"][1..] == ["c"];
    assert ["c"][1..] == [];
  }
}
