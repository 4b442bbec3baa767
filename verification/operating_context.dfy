/**
 * The operating-context selector of `src/components/OperatingContext.tsx`:
 * one tag per catalogue context, highlighted when its name is in the
 * selection; clicking a tag toggles that name.
 */
module OperatingContext {
  import opened Seqs
  import opened Catalogue

  /** One clickable tag: the context's name and whether it is highlighted. */
  datatype ContextTag = ContextTag(name: string, isSelected: bool)

  /**
   * `handleToggle`: a selected name is removed (every occurrence), an
   * unselected one is appended at the end.
   */
  function HandleToggle(prev: seq<string>, name: string): (r: seq<string>)
    ensures name in r <==> name !in prev
    ensures forall x :: x != name ==> (x in r <==> x in prev)
    ensures name in prev ==> IsSubseq(r, prev) && |r| < |prev|
    ensures name !in prev ==> |r| == |prev| + 1 && r[..|prev|] == prev
    ensures forall x :: x != name ==> multiset(r)[x] == multiset(prev)[x]
  {
    if name in prev then
      RemoveAllKeepsOrder(prev, [], name);
      RemoveAllCounts(prev, name);
      RemoveAll(prev, name)
    else prev + [name]
  }

  /** Toggling keeps a selection free of duplicates. */
  lemma ToggleKeepsDistinct(prev: seq<string>, name: string)
    requires Distinct(prev)
    ensures Distinct(HandleToggle(prev, name))
  {
    if name in prev {
      SubseqDistinct(HandleToggle(prev, name), prev);
    }
  }

  /**
   * Toggling the same name twice selects the same names again; when the
   * name started out unselected the list itself comes back.
   */
  lemma ToggleTwice(prev: seq<string>, name: string)
    ensures forall x :: x in HandleToggle(HandleToggle(prev, name), name) <==> x in prev
    ensures name !in prev ==> HandleToggle(HandleToggle(prev, name), name) == prev
  {
    if name !in prev {
      RemoveAllKeepsOrder(prev, [name], name);
      assert prev + [] == prev;
    }
  }

  /** The tags, in catalogue order; `isSelected` is `selectedContexts.includes(context.name)`. */
  function ContextTags(selected: seq<string>): (r: seq<ContextTag>)
    ensures |r| == |OperatingContexts|
    ensures forall i :: 0 <= i < |r| ==> r[i].name == OperatingContexts[i].name
  {
    Map((c: ContextEntry) => ContextTag(c.name, c.name in selected), OperatingContexts)
  }

  /** A tag is highlighted exactly when its name is selected. */
  lemma TagHighlighted(selected: seq<string>, i: nat)
    requires i < |OperatingContexts|
    ensures ContextTags(selected)[i].isSelected <==> OperatingContexts[i].name in selected
  {
  }

  /** Clicking tag `k` flips that tag's highlight and no other. */
  lemma ClickFlipsOneTag(selected: seq<string>, k: nat)
    requires k < |OperatingContexts|
    ensures var before := ContextTags(selected);
      var after := ContextTags(HandleToggle(selected, OperatingContexts[k].name));
      forall j :: 0 <= j < |after| ==>
        after[j].name == before[j].name &&
        (after[j].isSelected <==> (if j == k then !before[j].isSelected else before[j].isSelected))
  {
    ContextNamesDistinct();
    var names := ContextNames(OperatingContexts);
    assert forall j :: 0 <= j < |OperatingContexts| ==> names[j] == OperatingContexts[j].name;
  }
}
