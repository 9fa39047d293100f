/**
 * The state of the `TeamAutocomplete` input: whether the dropdown is open, which suggestion is
 * highlighted, and the suggestions themselves, as its event handlers and its suggestion effect
 * update them. The parent's `onChange` is recorded as the list of values it was handed.
 */
module Autocomplete {
  import opened Strings
  import opened Teams

  /** At most this many suggestions are shown. */
  const SuggestionLimit: nat := 10

  /** The suggestion effect's list: `value ? filterTeams(value).slice(0, 10) : []`. */
  function Suggestions(value: string): seq<string> {
    if value == "" then []
    else
      var teams := FilterTeams(value);
      if |teams| <= SuggestionLimit then teams else teams[..SuggestionLimit]
  }

  /**
   * For a non-empty value the suggestions are the first `min(10, n)` of the `n` clubs the search
   * finds, so each of them is on the list and matches the value; an empty value has none.
   */
  lemma SuggestionsSpec(value: string)
    ensures value == "" ==> Suggestions(value) == []
    ensures value != "" ==> |Suggestions(value)| == if |FilterTeams(value)| <= SuggestionLimit
      then |FilterTeams(value)| else SuggestionLimit
    ensures value != "" ==> Suggestions(value) == FilterTeams(value)[..|Suggestions(value)|]
    ensures forall t :: t in Suggestions(value) ==> t in TeamsList && Includes(ToUpper(t), NormalizedQuery(value))
  {
    if value != "" {
      var teams := FilterTeams(value);
      FilterTeamsMembers(value);
      assert forall t :: t in teams[..|Suggestions(value)|] ==> t in teams;
    }
  }

  /** The keys `handleKeyDown` tells apart; every other key is `Other`. */
  datatype Key = ArrowDown | ArrowUp | Enter | Escape | Other(name: string)

  class TeamAutocomplete {
    /** The controlled `value` prop the parent passes in. */
    var value: string
    var isOpen: bool
    var filteredTeams: seq<string>
    var highlightedIndex: int
    /** The values handed to the parent's `onChange`, oldest first. */
    var emitted: seq<string>

    /** No handler ever sets the highlight below -1, "nothing highlighted". */
    ghost predicate Valid()
      reads this
    {
      highlightedIndex >= -1
    }

    /** The highlight is nothing or one of the shown suggestions. */
    predicate InRange()
      reads this
    {
      highlightedIndex < |filteredTeams|
    }

    /** `isOpen && filteredTeams.length > 0`: the dropdown is on screen. */
    predicate DropdownShown()
      reads this
    {
      isOpen && |filteredTeams| > 0
    }

    /** The first render followed by the suggestion effect run on mount. */
    constructor(value: string)
      ensures Valid() && InRange()
      ensures this.value == value && !isOpen && filteredTeams == Suggestions(value)
      ensures highlightedIndex == -1 && emitted == []
    {
      this.value := value;
      isOpen := false;
      filteredTeams := Suggestions(value);
      highlightedIndex := -1;
      emitted := [];
    }

    /**
     * A new `value` prop and the effect it triggers: the suggestions are recomputed; the
     * highlight is left as it was, so it may now point past a shorter list.
     */
    method SyncSuggestions(newValue: string)
      modifies this`value, this`filteredTeams
      ensures value == newValue && filteredTeams == Suggestions(newValue)
    {
      value := newValue;
      filteredTeams := Suggestions(newValue);
    }

    /** `handleInputChange`: passes the typed text on, opens the dropdown and clears the highlight. */
    method InputChange(text: string)
      modifies this`emitted, this`isOpen, this`highlightedIndex
      ensures emitted == old(emitted) + [text]
      ensures isOpen && highlightedIndex == -1
      ensures Valid() && InRange()
    {
      emitted := emitted + [text];
      isOpen := true;
      highlightedIndex := -1;
    }

    /** `handleSelectTeam`: passes the team on as the new value, closes and clears the highlight. */
    method SelectTeam(team: string)
      modifies this`emitted, this`isOpen, this`highlightedIndex
      ensures emitted == old(emitted) + [team]
      ensures !isOpen && highlightedIndex == -1
      ensures Valid() && InRange()
    {
      emitted := emitted + [team];
      isOpen := false;
      highlightedIndex := -1;
    }

    /**
     * `handleKeyDown`. With the dropdown closed or empty, ArrowDown opens it and nothing else
     * happens. Otherwise ArrowDown moves down but not past the last suggestion, ArrowUp moves up
     * and from the first suggestion to nothing, Enter selects the highlighted suggestion when
     * there is one, Escape closes and clears, and other keys do nothing. The suggestions never
     * change, and a highlight inside the list stays inside it.
     */
    method KeyDown(key: Key)
      requires Valid()
      modifies this`emitted, this`isOpen, this`highlightedIndex
      ensures Valid()
      ensures old(InRange()) ==> InRange()
      ensures !old(DropdownShown()) ==>
        isOpen == (old(isOpen) || key == ArrowDown) && highlightedIndex == old(highlightedIndex) && emitted == old(emitted)
      ensures old(DropdownShown()) && key == ArrowDown ==>
        isOpen && emitted == old(emitted) &&
        highlightedIndex == if old(highlightedIndex) < |filteredTeams| - 1 then old(highlightedIndex) + 1 else old(highlightedIndex)
      ensures old(DropdownShown()) && key == ArrowUp ==>
        isOpen && emitted == old(emitted) &&
        highlightedIndex == if old(highlightedIndex) > 0 then old(highlightedIndex) - 1 else -1
      ensures old(DropdownShown()) && key == Enter && 0 <= old(highlightedIndex) < |filteredTeams| ==>
        emitted == old(emitted) + [filteredTeams[old(highlightedIndex)]] && !isOpen && highlightedIndex == -1
      ensures old(DropdownShown()) && key == Enter && !(0 <= old(highlightedIndex) < |filteredTeams|) ==>
        isOpen && highlightedIndex == old(highlightedIndex) && emitted == old(emitted)
      ensures old(DropdownShown()) && key == Escape ==>
        !isOpen && highlightedIndex == -1 && emitted == old(emitted)
      ensures old(DropdownShown()) && key.Other? ==>
        isOpen && highlightedIndex == old(highlightedIndex) && emitted == old(emitted)
    {
      if !isOpen || |filteredTeams| == 0 {
        if key == ArrowDown {
          isOpen := true;
        }
        return;
      }
      match key
      case ArrowDown =>
        if highlightedIndex < |filteredTeams| - 1 {
          highlightedIndex := highlightedIndex + 1;
        }
      case ArrowUp =>
        highlightedIndex := if highlightedIndex > 0 then highlightedIndex - 1 else -1;
      case Enter =>
        if highlightedIndex >= 0 && highlightedIndex < |filteredTeams| {
          SelectTeam(filteredTeams[highlightedIndex]);
        }
      case Escape =>
        isOpen := false;
        highlightedIndex := -1;
      case Other(_) =>
    }

    /** `handleFocus`: reopens the dropdown when there is a value and it has suggestions. */
    method Focus()
      modifies this`isOpen
      ensures isOpen == (old(isOpen) || (value != "" && |filteredTeams| > 0))
    {
      if value != "" && |filteredTeams| > 0 {
        isOpen := true;
      }
    }
  }

  /**
   * What a freshly mounted input shows when it is focused: the dropdown opens exactly when the
   * value has at least one matching club.
   */
  method FocusAfterMount(initial: string) returns (shown: bool)
    ensures shown <==> initial != "" && FilterTeams(initial) != []
  {
    var input := new TeamAutocomplete(initial);
    SuggestionsSpec(initial);
    input.Focus();
    shown := input.DropdownShown();
  }
}
