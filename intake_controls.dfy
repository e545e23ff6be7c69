/** The toggle controls of the symptom intake form: the single-choice gender group,
    the multi-choice symptom buttons with their live search, and the collapsible
    symptom categories. Each button's `selected` class is a flag in an array indexed
    in document order; its inline `style.display` is a `Display` value. */
module IntakeControls {
  import opened Wrappers
  import opened Text
  import opened OrderedSet

  /** The inline `style.display` of an element; `Unset` is the markup's own value. */
  datatype Display = Unset | Hidden | Flex | InlineBlock | Block

  /** The gender buttons. `values[i]` is the integer `parseInt` reads from button `i`'s
      `data-value`. */
  class GenderGroup {
    const values: seq<int>
    const selected: array<bool>
    var selectedGender: Option<int>

    /** At most one button is marked, and `selectedGender` is the value of the marked
        button, or `null` when none is. */
    ghost predicate Valid()
      reads this, selected
    {
      selected.Length == |values| &&
      (forall i, j :: 0 <= i < selected.Length && 0 <= j < selected.Length && selected[i] && selected[j] ==> i == j) &&
      (forall i :: 0 <= i < selected.Length && selected[i] ==> selectedGender == Some(values[i])) &&
      (selectedGender.None? <==> forall i :: 0 <= i < selected.Length ==> !selected[i])
    }

    /** Page load: no gender chosen, no button marked. */
    constructor (values: seq<int>)
      ensures Valid() && fresh(selected)
      ensures this.values == values && selectedGender == None
    {
      this.values := values;
      selected := new bool[|values|](i => false);
      selectedGender := None;
    }

    /** A click on button `b`: every button loses the mark, `b` gets it, and the gender
        becomes `b`'s value. */
    method Click(b: nat)
      requires Valid() && b < selected.Length
      modifies this, selected
      ensures Valid()
      ensures selectedGender == Some(values[b])
      ensures selected[b] && forall i :: 0 <= i < selected.Length && i != b ==> !selected[i]
      ensures old(selected[b]) ==> selected[..] == old(selected[..]) && selectedGender == old(selectedGender)
    {
      var i := 0;
      while i < selected.Length
        invariant 0 <= i <= selected.Length
        invariant forall k :: 0 <= k < i ==> !selected[k]
        invariant forall k :: i <= k < selected.Length ==> selected[k] == old(selected[k])
      {
        selected[i] := false;
        i := i + 1;
      }
      selected[b] := true;
      selectedGender := Some(values[b]);
    }
  }

  /** The marks of the symptom buttons and the contents of `selectedSymptoms`. */
  datatype Picks = Picks(marked: seq<bool>, chosen: seq<string>)

  /** A click on symptom button `b` whose `data-value` is `value`: the mark flips, and
      the value is added when the button is now marked and deleted otherwise. */
  function Toggled(p: Picks, b: nat, value: string): (r: Picks)
    requires b < |p.marked|
    ensures |r.marked| == |p.marked| && r.marked[b] == !p.marked[b]
    ensures forall i :: 0 <= i < |p.marked| && i != b ==> r.marked[i] == p.marked[i]
    ensures r.marked[b] ==> value in r.chosen
    ensures !r.marked[b] ==> value !in r.chosen
    ensures forall x :: x != value ==> (x in r.chosen <==> x in p.chosen)
  {
    var marked := p.marked[b := !p.marked[b]];
    Picks(marked, if marked[b] then Add(p.chosen, value) else Delete(p.chosen, value))
  }

  /** Two clicks on the same button give back the marks and the chosen symptoms. When the
      button started unmarked the insertion order is restored too; when it started marked
      the symptom comes back last, since a JavaScript `Set` re-inserts at the end. */
  lemma ToggledTwice(p: Picks, b: nat, value: string)
    requires b < |p.marked| && NoDup(p.chosen)
    requires p.marked[b] <==> value in p.chosen
    ensures Toggled(Toggled(p, b, value), b, value).marked == p.marked
    ensures Elements(Toggled(Toggled(p, b, value), b, value).chosen) == Elements(p.chosen)
    ensures !p.marked[b] ==> Toggled(Toggled(p, b, value), b, value) == p
  {
    if p.marked[b] {
      AddDelete(p.chosen, value);
    } else {
      DeleteAdd(p.chosen, value);
    }
  }

  /** Whether a button with text `caption` stays visible for the search text `term`:
      its text contains the term, ignoring case. */
  function Matches(caption: string, term: string): (b: bool)
    ensures b <==> exists k: nat :: OccursAt(Lower(caption), Lower(term), k)
    ensures term == "" ==> b
  {
    IncludesIff(Lower(caption), Lower(term));
    Includes(Lower(caption), Lower(term))
  }

  /** The search ignores case on both sides: lower-casing the text or the term first
      gives the same answer. */
  lemma MatchesIgnoresCase(caption: string, term: string)
    ensures Matches(caption, term) == Matches(Lower(caption), term) == Matches(caption, Lower(term))
  {
    LowerIsLower(caption);
    LowerIsLower(term);
  }

  /** The symptom buttons. `values[i]` is button `i`'s `data-value`, `labels[i]` its text. */
  class SymptomPicker {
    const values: seq<string>
    const labels: seq<string>
    const selected: array<bool>
    const display: array<Display>
    var selectedSymptoms: seq<string>

    /** The data-values of the marked buttons. */
    ghost function MarkedValues(): set<string>
      reads this, selected
      requires selected.Length == |values|
    {
      set i | 0 <= i < selected.Length && selected[i] :: values[i]
    }

    /** `selectedSymptoms` has no duplicates and only holds values of marked buttons; when
        no two buttons share a data-value it holds exactly those values. */
    ghost predicate Valid()
      reads this, selected
    {
      selected.Length == |values| == |labels| == display.Length &&
      NoDup(selectedSymptoms) &&
      Elements(selectedSymptoms) <= MarkedValues() &&
      (NoDup(values) ==> Elements(selectedSymptoms) == MarkedValues())
    }

    function State(): Picks
      reads this, selected
    {
      Picks(selected[..], selectedSymptoms)
    }

    /** Page load: nothing chosen, no button marked. */
    constructor (values: seq<string>, labels: seq<string>)
      requires |values| == |labels|
      ensures Valid() && fresh(selected) && fresh(display)
      ensures this.values == values && this.labels == labels
      ensures selectedSymptoms == [] && forall i :: 0 <= i < selected.Length ==> !selected[i]
    {
      this.values := values;
      this.labels := labels;
      selected := new bool[|values|](i => false);
      display := new Display[|values|](i => Unset);
      selectedSymptoms := [];
    }

    /** With distinct data-values, a button is marked exactly when its value is chosen. */
    lemma MarkedIffChosen(b: nat)
      requires Valid() && NoDup(values) && b < selected.Length
      ensures selected[b] <==> values[b] in selectedSymptoms
    {
      if selected[b] {
        assert values[b] in MarkedValues();
      }
      if values[b] in selectedSymptoms {
        assert values[b] in MarkedValues();
        var i :| 0 <= i < selected.Length && selected[i] && values[i] == values[b];
        assert i == b;
      }
    }

    /** A click on symptom button `b`. */
    method Toggle(b: nat)
      requires Valid() && b < selected.Length
      modifies this, selected
      ensures Valid()
      ensures State() == Toggled(old(State()), b, values[b])
      ensures unchanged(display)
    {
      ghost var before := MarkedValues();
      selected[b] := !selected[b];
      var symptom := values[b];
      if selected[b] {
        selectedSymptoms := Add(selectedSymptoms, symptom);
      } else {
        selectedSymptoms := Delete(selectedSymptoms, symptom);
      }
      assert MarkedValues() - {symptom} == before - {symptom} by {
        forall x | x != symptom ensures x in MarkedValues() <==> x in before {
          if x in before {
            var i :| 0 <= i < selected.Length && old(selected[i]) && values[i] == x;
            assert selected[i];
          }
          if x in MarkedValues() {
            var i :| 0 <= i < selected.Length && selected[i] && values[i] == x;
            assert old(selected[i]);
          }
        }
      }
      assert selected[b] ==> symptom in MarkedValues();
      if NoDup(values) && !selected[b] {
        forall i | 0 <= i < selected.Length && selected[i] ensures values[i] != symptom {
          assert i != b;
        }
        assert symptom !in MarkedValues();
      }
    }

    /** An edit of the search box: each button is shown inline when its label matches the
        term and hidden otherwise. The selection is left alone. */
    method Filter(term: string)
      requires Valid()
      modifies display
      ensures Valid()
      ensures forall i :: 0 <= i < display.Length ==>
        display[i] == if Matches(labels[i], term) then InlineBlock else Hidden
      ensures term == "" ==> forall i :: 0 <= i < display.Length ==> display[i] == InlineBlock
      ensures State() == old(State())
    {
      var i := 0;
      while i < display.Length
        invariant 0 <= i <= display.Length
        invariant forall k :: 0 <= k < i ==> display[k] == if Matches(labels[k], term) then InlineBlock else Hidden
      {
        display[i] := if Matches(labels[i], term) then InlineBlock else Hidden;
        i := i + 1;
      }
    }
  }

  /** The symptom categories: whether each title carries the `collapsed` class, and the
      display of the content that follows it. */
  class Categories {
    const collapsed: array<bool>
    const content: array<Display>

    /** The content is hidden exactly when its title is collapsed, and laid out as a flex
        row otherwise. */
    ghost predicate Valid()
      reads this, collapsed, content
    {
      collapsed.Length == content.Length &&
      forall k :: 0 <= k < content.Length ==> content[k] == if collapsed[k] then Hidden else Flex
    }

    /** Page load: every category, whatever the markup said, starts collapsed and hidden. */
    constructor (titles: array<bool>, contents: array<Display>)
      requires titles.Length == contents.Length
      modifies titles, contents
      ensures Valid() && collapsed == titles && content == contents
      ensures forall k :: 0 <= k < content.Length ==> collapsed[k] && content[k] == Hidden
    {
      var k := 0;
      while k < titles.Length
        invariant 0 <= k <= titles.Length
        invariant forall j :: 0 <= j < k ==> titles[j] && contents[j] == Hidden
      {
        contents[k] := Hidden;
        titles[k] := true;
        k := k + 1;
      }
      collapsed := titles;
      content := contents;
    }

    /** A click on title `k`: its flag flips and its content follows it. No other category
        changes. */
    method TitleClick(k: nat)
      requires Valid() && k < collapsed.Length
      modifies collapsed, content
      ensures Valid()
      ensures collapsed[..] == old(collapsed[..])[k := !old(collapsed[k])]
      ensures content[..] == old(content[..])[k := if collapsed[k] then Hidden else Flex]
    {
      collapsed[k] := !collapsed[k];
      content[k] := if collapsed[k] then Hidden else Flex;
    }

    /** Two clicks on the same title give back every flag and every content display. */
    method TitleClickTwice(k: nat)
      requires Valid() && k < collapsed.Length
      modifies collapsed, content
      ensures Valid()
      ensures collapsed[..] == old(collapsed[..]) && content[..] == old(content[..])
    {
      TitleClick(k);
      TitleClick(k);
    }
  }
}
