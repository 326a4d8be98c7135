/**
 * components/ConfirmationModal.tsx: the dialog that lists the ingredients
 * read from a photo, lets the user drop some and hands the rest to the
 * parent. Its props (`isOpen`, `initialIngredients`) are fields the parent
 * sets; `currentIngredients` is the dialog's own state.
 */
module ConfirmationDialog {
  import opened Wrappers
  import opened IngredientLists

  /** The confirm button is enabled (`disabled={currentIngredients.length === 0}` is false). */
  predicate ConfirmEnabled(list: seq<string>)
  {
    |list| > 0
  }

  /** Removing an entry leaves the button enabled exactly when some other entry remains. */
  lemma RemoveKeepsConfirmEnabled(list: seq<string>, x: string)
    ensures ConfirmEnabled(RemoveAll(list, x)) <==> exists k :: 0 <= k < |list| && list[k] != x
  {
    if exists k :: 0 <= k < |list| && list[k] != x {
      var k :| 0 <= k < |list| && list[k] != x;
      assert multiset(list)[list[k]] > 0;
      assert list[k] in RemoveAll(list, x);
    } else {
      forall y | y != x
        ensures multiset(list)[y] == 0
      {
      }
      assert multiset(RemoveAll(list, x)) == multiset{};
    }
  }

  class ConfirmationModal {
    var isOpen: bool
    var initialIngredients: seq<string>
    var currentIngredients: seq<string>

    /** `useState<string[]>(initialIngredients)` on first render. */
    constructor(isOpen: bool, initialIngredients: seq<string>)
      ensures this.isOpen == isOpen && this.initialIngredients == initialIngredients
      ensures currentIngredients == initialIngredients
    {
      this.isOpen := isOpen;
      this.initialIngredients := initialIngredients;
      currentIngredients := initialIngredients;
    }

    /**
     * The parent renders with new props; the effect resets the list when
     * the dialog is open and a prop changed.
     */
    method Render(isOpen: bool, initialIngredients: seq<string>)
      modifies this
      ensures this.isOpen == isOpen && this.initialIngredients == initialIngredients
      ensures currentIngredients ==
                if isOpen && (isOpen != old(this.isOpen) || initialIngredients != old(this.initialIngredients))
                then initialIngredients else old(currentIngredients)
    {
      var changed := isOpen != this.isOpen || initialIngredients != this.initialIngredients;
      this.isOpen := isOpen;
      this.initialIngredients := initialIngredients;
      if isOpen && changed {
        currentIngredients := initialIngredients;
      }
    }

    /** `handleRemoveIngredient`: the remove buttons exist only while the dialog is open. */
    method Remove(ingredient: string)
      requires isOpen
      modifies this
      ensures currentIngredients == RemoveAll(old(currentIngredients), ingredient)
      ensures isOpen && initialIngredients == old(initialIngredients)
    {
      currentIngredients := RemoveAll(currentIngredients, ingredient);
    }

    /**
     * A click on the confirm button: when enabled, `onConfirm` receives the
     * current list and `onClose` closes the dialog; a disabled button does
     * nothing.
     */
    method Confirm() returns (confirmed: Option<seq<string>>)
      requires isOpen
      modifies this
      ensures ConfirmEnabled(old(currentIngredients)) ==>
                confirmed == Some(old(currentIngredients)) && !isOpen
      ensures !ConfirmEnabled(old(currentIngredients)) ==> confirmed == None && isOpen
      ensures currentIngredients == old(currentIngredients) && initialIngredients == old(initialIngredients)
    {
      if !ConfirmEnabled(currentIngredients) {
        return None;
      }
      confirmed := Some(currentIngredients);
      isOpen := false;
    }

    /** The cancel button: `onClose`. */
    method Close()
      modifies this
      ensures !isOpen
      ensures currentIngredients == old(currentIngredients) && initialIngredients == old(initialIngredients)
    {
      isOpen := false;
    }
  }

  /**
   * Whatever the user removes, what the dialog hands on is a sub-list of
   * the detected ingredients: every entry comes from them.
   */
  lemma {:induction false} RemovalsKeepDetected(detected: seq<string>, removed: seq<string>)
    ensures forall y :: y in RemoveEach(detected, removed) ==> y in detected
    decreases |removed|
  {
    if removed != [] {
      RemovalsKeepDetected(detected, removed[..|removed| - 1]);
      var before := RemoveEach(detected, removed[..|removed| - 1]);
      forall y | y in RemoveAll(before, removed[|removed| - 1])
        ensures y in before
      {
        assert multiset(before)[y] > 0;
      }
    }
  }

  /** The list after removing each of `removed` in turn. */
  function RemoveEach(list: seq<string>, removed: seq<string>): (r: seq<string>)
    ensures forall x :: x in removed ==> x !in r
    ensures forall y :: y !in removed ==> multiset(r)[y] == multiset(list)[y]
    decreases |removed|
  {
    if removed == [] then list
    else
      var before := RemoveEach(list, removed[..|removed| - 1]);
      assert forall x :: x in removed ==> x in removed[..|removed| - 1] || x == removed[|removed| - 1];
      RemoveAllKeepsAbsent(before, removed[|removed| - 1]);
      RemoveAll(before, removed[|removed| - 1])
  }

  lemma RemoveAllKeepsAbsent(list: seq<string>, x: string)
    ensures forall y :: y !in list ==> y !in RemoveAll(list, x)
  {
    forall y | y !in list
      ensures y !in RemoveAll(list, x)
    {
      if y != x {
        assert multiset(list)[y] == 0;
      }
    }
  }
}
