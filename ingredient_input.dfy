/**
 * The text box of components/IngredientInput.tsx: a comma-separated entry
 * is trimmed, split on ',', each piece trimmed and the empty ones dropped;
 * every remaining item is handed to `onAddIngredient`, in order, and a
 * non-blank entry clears the box.
 */
module IngredientEntry {
  import opened Text
  import opened IngredientLists

  /** `pieces.map(ing => ing.trim()).filter(Boolean)` */
  function Clean(pieces: seq<string>): (r: seq<string>)
    ensures |r| <= |pieces|
    ensures forall x :: x in r ==> x != "" && IsTrimmed(x)
  {
    if pieces == [] then []
    else (if Trim(pieces[0]) == "" then [] else [Trim(pieces[0])]) + Clean(pieces[1..])
  }

  /** Cleaning distributes over concatenation of piece lists. */
  lemma {:induction false} CleanConcat(a: seq<string>, b: seq<string>)
    ensures Clean(a + b) == Clean(a) + Clean(b)
  {
    if a == [] {
      assert a + b == b;
    } else {
      assert (a + b)[1..] == a[1..] + b;
      CleanConcat(a[1..], b);
    }
  }

  /** Trimming keeps only characters of its argument. */
  lemma TrimKeepsOut(s: string, c: char)
    requires c !in s
    ensures c !in Trim(s)
  {
    var t := TrimStart(s);
    var r := TrimEnd(t);
    TrimStartShape(s);
    TrimEndShape(t);
    assert Trim(s) == r;
    forall k | 0 <= k < |r|
      ensures r[k] != c
    {
      assert r[k] == t[k] == s[|s| - |t| + k];
    }
  }

  /** A character no piece holds is in no cleaned item. */
  lemma {:induction false} CleanKeepsOut(pieces: seq<string>, c: char)
    requires forall p :: p in pieces ==> c !in p
    ensures forall x :: x in Clean(pieces) ==> c !in x
  {
    if pieces != [] {
      TrimKeepsOut(pieces[0], c);
      CleanKeepsOut(pieces[1..], c);
    }
  }

  /** `inputValue.trim().split(',').map(ing => ing.trim()).filter(Boolean)` */
  function ParseIngredients(input: string): (r: seq<string>)
    ensures forall x :: x in r ==> x != "" && IsTrimmed(x) && ',' !in x
  {
    var pieces := Split(Trim(input), ',');
    CleanKeepsOut(pieces, ',');
    Clean(pieces)
  }

  // ---------------------------------------------------------------------------
  // The outer trim is absorbed by the per-piece trim
  // ---------------------------------------------------------------------------

  lemma TrimDropsLeadingSpace(w: char, x: string)
    requires IsWhitespace(w)
    ensures Trim([w] + x) == Trim(x)
  {
    assert ([w] + x)[1..] == x;
  }

  /** `pieces` with `c` appended to its last piece. */
  function AppendToLast(pieces: seq<string>, c: char): (r: seq<string>)
    requires |pieces| >= 1
    ensures |r| == |pieces| && r[..|r| - 1] == pieces[..|pieces| - 1]
  {
    pieces[..|pieces| - 1] + [pieces[|pieces| - 1] + [c]]
  }

  /** Appending to the last piece commutes with a new first piece. */
  lemma AppendToLastCons(head: string, pieces: seq<string>, c: char)
    requires |pieces| >= 1
    ensures AppendToLast([head] + pieces, c) == [head] + AppendToLast(pieces, c)
  {
    var whole := [head] + pieces;
    assert whole[..|whole| - 1] == [head] + pieces[..|pieces| - 1];
  }

  /** Appending to the last piece commutes with growing the first piece at its front. */
  lemma AppendToLastGrow(a: char, pieces: seq<string>, c: char)
    requires |pieces| >= 1
    ensures var p := AppendToLast(pieces, c);
      [[a] + p[0]] + p[1..] == AppendToLast([[a] + pieces[0]] + pieces[1..], c)
  {
    var p := AppendToLast(pieces, c);
    if |pieces| == 1 {
      assert p == [pieces[0] + [c]];
      assert [a] + (pieces[0] + [c]) == ([a] + pieces[0]) + [c];
    } else {
      assert p[0] == pieces[0];
      AppendToLastCons([a] + pieces[0], pieces[1..], c);
      assert p[1..] == AppendToLast(pieces[1..], c);
    }
  }

  /** Appending a non-separator character extends the last piece. */
  lemma {:induction false} SplitSnoc(u: string, c: char, sep: char)
    requires c != sep
    ensures Split(u + [c], sep) == AppendToLast(Split(u, sep), c)
    decreases |u|
  {
    if u == [] {
      assert u + [c] == [c] && [c][1..] == [];
      assert Split([], sep) == [[]];
      assert Split([c], sep) == [[c] + Split([], sep)[0]] + Split([], sep)[1..];
      assert [c] + [] == [c] && [] + [c] == [c];
      assert AppendToLast([[]], c) == [[c]];
    } else {
      assert (u + [c])[0] == u[0] && (u + [c])[1..] == u[1..] + [c];
      SplitSnoc(u[1..], c, sep);
      var rest := Split(u[1..], sep);
      if u[0] == sep {
        AppendToLastCons([], rest, c);
      } else {
        AppendToLastGrow(u[0], rest, c);
      }
    }
  }

  lemma {:induction false} TrimStartSnoc(x: string, w: char)
    requires IsWhitespace(w)
    ensures TrimStart(x + [w]) == if AllWhitespace(x) then [] else TrimStart(x) + [w]
    decreases |x|
  {
    if x == [] {
      assert [] + [w] == [w] && [w][1..] == [];
    } else if IsWhitespace(x[0]) {
      assert (x + [w])[0] == x[0] && (x + [w])[1..] == x[1..] + [w];
      TrimStartSnoc(x[1..], w);
      assert AllWhitespace(x) <==> AllWhitespace(x[1..]) by {
        if AllWhitespace(x[1..]) {
          forall k | 0 <= k < |x|
            ensures IsWhitespace(x[k])
          {
            if k > 0 {
              assert x[k] == x[1..][k - 1];
            }
          }
        }
      }
    } else {
      assert (x + [w])[0] == x[0];
      assert !AllWhitespace(x) by {
        assert !IsWhitespace(x[0]);
      }
    }
  }

  lemma TrimDropsTrailingSpace(x: string, w: char)
    requires IsWhitespace(w)
    ensures Trim(x + [w]) == Trim(x)
  {
    TrimStartSnoc(x, w);
    if AllWhitespace(x) {
      TrimStartOfBlank(x);
    } else {
      var t := TrimStart(x);
      assert (t + [w])[..|t + [w]| - 1] == t;
    }
  }

  /** Cleaning depends only on the trimmed pieces. */
  lemma {:induction false} CleanSameTrims(p: seq<string>, q: seq<string>)
    requires |p| == |q| && forall k :: 0 <= k < |p| ==> Trim(p[k]) == Trim(q[k])
    ensures Clean(p) == Clean(q)
  {
    if p != [] {
      CleanSameTrims(p[1..], q[1..]);
    }
  }

  lemma TrailingSpaceDropsOut(u: string, w: char)
    requires IsWhitespace(w)
    ensures Clean(Split(u + [w], ',')) == Clean(Split(u, ','))
  {
    var pieces := Split(u, ',');
    var n := |pieces|;
    SplitSnoc(u, w, ',');
    var longer := Split(u + [w], ',');
    forall k | 0 <= k < n
      ensures Trim(longer[k]) == Trim(pieces[k])
    {
      if k == n - 1 {
        TrimDropsTrailingSpace(pieces[k], w);
      }
    }
    CleanSameTrims(longer, pieces);
  }

  lemma FirstSpaceDropsOut(s: string)
    requires s != [] && IsWhitespace(s[0])
    ensures Clean(Split(s, ',')) == Clean(Split(s[1..], ','))
  {
    var rest := Split(s[1..], ',');
    var whole := Split(s, ',');
    assert whole == [[s[0]] + rest[0]] + rest[1..];
    forall k | 0 <= k < |rest|
      ensures Trim(whole[k]) == Trim(rest[k])
    {
      if k == 0 {
        assert whole[0] == [s[0]] + rest[0];
        TrimDropsLeadingSpace(s[0], rest[0]);
      } else {
        assert whole[k] == rest[1..][k - 1] == rest[k];
      }
    }
    CleanSameTrims(whole, rest);
  }

  lemma {:induction false} LeadingSpaceIgnored(s: string)
    ensures Clean(Split(TrimStart(s), ',')) == Clean(Split(s, ','))
    decreases |s|
  {
    if s != [] && IsWhitespace(s[0]) {
      assert TrimStart(s) == TrimStart(s[1..]);
      LeadingSpaceIgnored(s[1..]);
      FirstSpaceDropsOut(s);
    }
  }

  lemma LastSpaceDropsOut(s: string)
    requires s != [] && IsWhitespace(s[|s| - 1])
    ensures Clean(Split(s, ',')) == Clean(Split(s[..|s| - 1], ','))
  {
    assert s == s[..|s| - 1] + [s[|s| - 1]];
    TrailingSpaceDropsOut(s[..|s| - 1], s[|s| - 1]);
  }

  lemma {:induction false} TrailingSpaceIgnored(s: string)
    ensures Clean(Split(TrimEnd(s), ',')) == Clean(Split(s, ','))
    decreases |s|
  {
    if s != [] && IsWhitespace(s[|s| - 1]) {
      var u := s[..|s| - 1];
      var t := TrimEnd(s);
      assert t == TrimEnd(u);
      TrailingSpaceIgnored(u);
      LastSpaceDropsOut(s);
    }
  }

  lemma TrimIgnored(s: string)
    ensures ParseIngredients(s) == Clean(Split(s, ','))
  {
    TrailingSpaceIgnored(TrimStart(s));
    LeadingSpaceIgnored(s);
  }

  /**
   * Items come out in the order they were typed: the items left of a comma
   * precede those right of it.
   */
  lemma ParseInOrder(a: string, b: string)
    ensures ParseIngredients(a + [','] + b) == ParseIngredients(a) + ParseIngredients(b)
  {
    TrimIgnored(a + [','] + b);
    TrimIgnored(a);
    TrimIgnored(b);
    SplitAtSeparator(a, b, ',');
    CleanConcat(Split(a, ','), Split(b, ','));
  }

  /** An entry that trims to nothing yields no ingredient. */
  lemma NothingAfterTrim(s: string)
    requires Trim(s) == []
    ensures ParseIngredients(s) == []
  {
    assert Split([], ',') == [[]];
    assert Trim([]) == [];
  }

  /** A blank entry yields no ingredient. */
  lemma BlankEntryYieldsNothing(s: string)
    requires AllWhitespace(s)
    ensures Trim(s) == [] && ParseIngredients(s) == []
  {
    TrimStartOfBlank(s);
    NothingAfterTrim(s);
  }

  /** Commas alone are a non-blank entry that yields no ingredient. */
  lemma OnlyCommasYieldNothing()
    ensures Trim(",,,") != [] && ParseIngredients(",,,") == []
  {
    assert Split(",,,", ',') == [[], [], [], []];
  }

  /** The component's only state: the text in the box. */
  class IngredientInput {
    var inputValue: string

    /** `useState('')` */
    constructor()
      ensures inputValue == ""
    {
      inputValue := "";
    }

    /** The box's `onChange`. */
    method Change(value: string)
      modifies this
      ensures inputValue == value
    {
      inputValue := value;
    }

    /**
     * `handleAdd`: `emitted` are the arguments of the successive
     * `onAddIngredient` calls; a non-blank entry clears the box even when
     * it yields no ingredient.
     */
    method HandleAdd() returns (emitted: seq<string>)
      modifies this
      ensures emitted == ParseIngredients(old(inputValue))
      ensures inputValue == if Trim(old(inputValue)) == "" then old(inputValue) else ""
    {
      var trimmedValue := Trim(inputValue);
      emitted := [];
      if trimmedValue == "" {
        NothingAfterTrim(inputValue);
      } else {
        emitted := Clean(Split(trimmedValue, ','));
        inputValue := "";
      }
    }

    /** `handleKeyDown`: Enter does what the button does; any other key nothing. */
    method HandleKeyDown(key: string) returns (emitted: seq<string>)
      modifies this
      ensures key == "Enter" ==>
                emitted == ParseIngredients(old(inputValue))
                && inputValue == if Trim(old(inputValue)) == "" then old(inputValue) else ""
      ensures key != "Enter" ==> emitted == [] && inputValue == old(inputValue)
    {
      emitted := [];
      if key == "Enter" {
        emitted := HandleAdd();
      }
    }
  }

  // ---------------------------------------------------------------------------
  // What the App's list becomes when the box emits several items
  // ---------------------------------------------------------------------------

  /**
   * The list after one `handleAddIngredient` call per emitted item, as
   * App.tsx writes it: every call builds its new list from the same
   * `snapshot` of the render, and the state keeps the last write.
   */
  function AddEachFromSnapshot(snapshot: seq<string>, items: seq<string>): (r: seq<string>)
    ensures snapshot <= r && |r| <= |snapshot| + 1
    decreases |items|
  {
    if items == [] then snapshot
    else
      var last := items[|items| - 1];
      if AddIngredient(snapshot, last) != snapshot then AddIngredient(snapshot, last)
      else AddEachFromSnapshot(snapshot, items[..|items| - 1])
  }

  /** The condition under which `handleAddIngredient` writes a new list. */
  predicate PassesCheck(snapshot: seq<string>, item: string)
  {
    item != "" && !ContainsIgnoringCase(snapshot, item)
  }

  /**
   * As written, the last emitted item that passes the check against the
   * snapshot is the only one added: later items all fail it, and earlier
   * ones are overwritten.
   */
  lemma {:induction false} LastPassingItemWins(snapshot: seq<string>, items: seq<string>, j: nat)
    requires j < |items| && PassesCheck(snapshot, items[j])
    requires forall i :: j < i < |items| ==> !PassesCheck(snapshot, items[i])
    ensures AddEachFromSnapshot(snapshot, items) == snapshot + [items[j]]
    decreases |items|
  {
    var n := |items|;
    var front := items[..n - 1];
    if j < n - 1 {
      assert !PassesCheck(snapshot, items[n - 1]);
      assert front[j] == items[j];
      forall i | j < i < |front|
        ensures !PassesCheck(snapshot, front[i])
      {
        assert front[i] == items[i];
      }
      LastPassingItemWins(snapshot, front, j);
    }
  }

  /** As written, when no emitted item passes the check the list stays the snapshot. */
  lemma {:induction false} NoPassingItemKeepsSnapshot(snapshot: seq<string>, items: seq<string>)
    requires forall i :: 0 <= i < |items| ==> !PassesCheck(snapshot, items[i])
    ensures AddEachFromSnapshot(snapshot, items) == snapshot
    decreases |items|
  {
    if items != [] {
      var front := items[..|items| - 1];
      assert !PassesCheck(snapshot, items[|items| - 1]);
      forall i | 0 <= i < |front|
        ensures !PassesCheck(snapshot, front[i])
      {
        assert front[i] == items[i];
      }
      NoPassingItemKeepsSnapshot(snapshot, front);
    }
  }

  lemma {:induction false} SplitWithoutSeparator(s: string, sep: char)
    requires sep !in s
    ensures Split(s, sep) == [s]
    decreases |s|
  {
    if s != [] {
      SplitWithoutSeparator(s[1..], sep);
      assert [s[0]] + s[1..] == s;
    }
  }

  lemma TrimmedIsFixed(s: string)
    requires IsTrimmed(s)
    ensures Trim(s) == s
  {
    assert TrimStart(s) == s;
  }

  /** A single trimmed word without a comma is parsed to itself. */
  lemma ParseWord(s: string)
    requires s != [] && IsTrimmed(s) && ',' !in s
    ensures ParseIngredients(s) == [s]
  {
    TrimmedIsFixed(s);
    SplitWithoutSeparator(s, ',');
  }

  lemma ParseOfTrim(s: string, t: string)
    requires Trim(s) == Trim(t)
    ensures ParseIngredients(s) == ParseIngredients(t)
  {
  }

  /** "a, b" is parsed to the two words, in order. */
  lemma ParseTwoWords(a: string, b: string)
    requires a != [] && IsTrimmed(a) && ',' !in a
    requires b != [] && IsTrimmed(b) && ',' !in b
    ensures ParseIngredients(a + ", " + b) == [a, b]
  {
    var spaced := [' '] + b;
    assert a + ", " + b == a + [','] + spaced;
    ParseInOrder(a, spaced);
    ParseWord(a);
    ParseWord(b);
    TrimDropsLeadingSpace(' ', b);
    ParseOfTrim(spaced, b);
  }

  /**
   * Typing "Tofu, Kale" into an empty list emits Tofu then Kale, and the
   * list keeps only Kale.
   */
  lemma SnapshotLosesEarlierItems()
    ensures AddEachFromSnapshot([], ["Tofu", "Kale"]) == ["Kale"]
  {
    assert AddIngredient([], "Kale") == ["Kale"];
  }

  /** The evidently intended list: each item added to the list the previous one left. */
  function AddEach(list: seq<string>, items: seq<string>): (r: seq<string>)
    ensures list <= r && |r| <= |list| + |items|
    decreases |items|
  {
    if items == [] then list else AddEach(AddIngredient(list, items[0]), items[1..])
  }

  lemma ExtensionContains(a: seq<string>, b: seq<string>, x: string)
    requires a <= b && ContainsIgnoringCase(a, x)
    ensures ContainsIgnoringCase(b, x)
  {
    var k :| 0 <= k < |a| && EqualsIgnoringCase(a[k], x);
    assert b[k] == a[k];
  }

  /** Every non-empty item ends up in the list, and a clean list stays clean. */
  lemma {:induction false} AddEachAddsAll(list: seq<string>, items: seq<string>)
    ensures forall x :: x in items && x != "" ==> ContainsIgnoringCase(AddEach(list, items), x)
    ensures NoCaseDuplicates(list) && "" !in list ==>
              NoCaseDuplicates(AddEach(list, items)) && "" !in AddEach(list, items)
    decreases |items|
  {
    if items != [] {
      var next := AddIngredient(list, items[0]);
      AddEachAddsAll(next, items[1..]);
      if items[0] != "" {
        ExtensionContains(next, AddEach(list, items), items[0]);
      }
      if NoCaseDuplicates(list) && "" !in list {
        AddKeepsListClean(list, items[0]);
      }
      forall x | x in items && x != ""
        ensures ContainsIgnoringCase(AddEach(list, items), x)
      {
        if x != items[0] {
          assert x in items[1..];
        }
      }
    }
  }

  /** For a single item the two agree: the discrepancy needs a batch. */
  lemma SingleItemAgrees(list: seq<string>, item: string)
    ensures AddEachFromSnapshot(list, [item]) == AddEach(list, [item]) == AddIngredient(list, item)
  {
    assert [item][..0] == [];
  }
}
