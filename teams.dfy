/**
 * The club list of the AJF Ilfov competitions (`lib/teams-data.ts`) and the team search the
 * autocomplete runs against it.
 */
module Teams {
  import opened Strings

  /**
   * `TEAMS_LIST`: seventy-four upper-case club names, in the file's order and in its commented
   * blocks. The header comment calls the list sorted; it is not (see `TeamsListShape`).
   */
  const TeamsList: seq<string> :=
    AsTeams + AcsTeams + AcslTeams + AcsoTeams + AcssTeams + AsccTeams
    + CsTeams + CslTeams + FcTeams + ScTeams + OtherTeams

  /** The list's "A.S. teams" block. */
  const AsTeams: seq<string> := [
    "A.S. SPORTING O.L.",
    "A.S. SPORTING O.L. 2019",
    "A.S. STEJARUL GRUIU",
    "A.S. C. V. MOARA VLASIEI",
    "A.S. NEW CASTLE",
    "A.S. PESCARUSUL GRADISTEA",
    "A.S. RADU",
    "A.S. RADUCS MAGURELE",
    "A.S. VOINTA BRANESTI",
    "A.S. YOUNG BOYS PETRACHIOAIA"
  ]

  /** The list's "ACS teams" block. */
  const AcsTeams: seq<string> := [
    "A.C.S. ACADEMICA",
    "A.C.S. ACADEMICA DOMNESTI",
    "A.C.S. ARGMAN",
    "A.C.S. ATHELTICO YOUNG STAR",
    "A.C.S. ATLETIC BUFTEA",
    "A.C.S. DE SANATATE",
    "A.C.S. DE SANATATE VOINTA BUFTEA",
    "A.C.S. FULGERUL",
    "A.C.S. GLINA",
    "A.C.S. JUNIORS BERCENI",
    "A.C.S. LPS HD CLINCENI",
    "A.C.S. LPS HD CLINCENI 2",
    "A.C.S. MAO RADULESCO",
    "A.C.S. OLIMPIC SNAGOV",
    "A.C.S. OLIMPIC SNAGOV 2",
    "A.C.S. PERIS",
    "A.C.S. REAL BRAGADIRU",
    "A.C.S. REAL BRAGADIRU 2",
    "A.C.S. SABRI ARENA",
    "A.C.S. SABRI ARENA 2",
    "A.C.S. UNIREA DOBROESTI",
    "A.C.S. UNIREA DOBROESTI 2",
    "A.C.S. VIITORUL CORBEANCA",
    "A.C.S. VIITORUL DRAGOMIRESTI VALE",
    "A.C.S. VIITORUL MOARA VLASIEI",
    "A.C.S. VIITORUL VIDRA",
    "A.C.S. VOINTA DOMNESTI",
    "A.C.S. YOUNG BOYS PETRACHIOAIA"
  ]

  /** The list's "ACSL teams" block. */
  const AcslTeams: seq<string> := [
    "A.C.S.L. STEFANESTI"
  ]

  /** The list's "ACSO teams" block. */
  const AcsoTeams: seq<string> := [
    "A.C.S.O. VIITORUL PANTELIMON"
  ]

  /** The list's "ACSS teams" block. */
  const AcssTeams: seq<string> := [
    "A.C.S.S. VOINTA BUFTEA",
    "A.C.S.S. VOINTA BUFTEA 2"
  ]

  /** The list's "ASCC teams" block. */
  const AsccTeams: seq<string> := [
    "A.S.C.C. CIOLPANI"
  ]

  /** The list's "CS teams" block. */
  const CsTeams: seq<string> := [
    "C.S. AFUMATI",
    "C.S. BALOTESTI",
    "C.S. BALOTESTI 2",
    "C.S. BRANESTI",
    "C.S. CERNICA",
    "C.S. CERNICA 2",
    "C.S. CHITILA",
    "C.S. CIOROGARLA",
    "C.S. CONCORDIA CHIAJNA",
    "C.S. DARASTI",
    "C.S. GLORIA BURIAS",
    "C.S. GLINA",
    "C.S. MAGURELE",
    "C.S. MILANETO",
    "C.S. OTOPENI",
    "C.S. PROGRESUL MOGOSOAIA",
    "C.S. PROGRESUL MOGOSOAIA 2",
    "C.S. TUNARI",
    "C.S. TUNARI 2",
    "C.S. TUNARI 3",
    "C.S. VOINTA DOMNESTI",
    "C.S. VOINTA DOMNESTI 2"
  ]

  /** The list's "C.S.L. teams" block. */
  const CslTeams: seq<string> := [
    "C.S.L. STEFANESTI"
  ]

  /** The list's "F.C. teams" block. */
  const FcTeams: seq<string> := [
    "F.C. VOLUNTARI",
    "F.C. VOLUNTARI 2",
    "F.C. VOLUNTARI S.A.",
    "F.C. VOLUNTARI 2 S.A.",
    "F.C. 1 DECEMBRIE"
  ]

  /** The list's "S.C. teams" block. */
  const ScTeams: seq<string> := [
    "S.C. POPESTI LEORDENI"
  ]

  /** The list's "Other teams" block. */
  const OtherTeams: seq<string> := [
    "FRATIA",
    "SPORTING O.L."
  ]

  /** The search text `filterTeams` looks for: `query.toUpperCase().trim()`. */
  function NormalizedQuery(query: string): string {
    Trim(ToUpper(query))
  }

  /** `teams.filter(team => team.toUpperCase().includes(needle))`, keeping the list's order. */
  function Matching(teams: seq<string>, needle: string): (r: seq<string>)
    ensures |r| <= |teams|
  {
    if teams == [] then []
    else (if Includes(ToUpper(teams[0]), needle) then [teams[0]] else []) + Matching(teams[1..], needle)
  }

  /**
   * The body of `filterTeams` over a given list: the whole list for an empty or all-whitespace
   * query (`!query || query.trim() === ''`), otherwise the entries whose upper-cased name
   * contains the normalized query.
   */
  function Search(teams: seq<string>, query: string): seq<string> {
    if IsBlank(query) then teams else Matching(teams, NormalizedQuery(query))
  }

  /** `filterTeams`: the search over `TEAMS_LIST`. */
  function FilterTeams(query: string): seq<string> {
    Search(TeamsList, query)
  }

  /** `a` is `b` with some elements left out, the rest in their order. */
  predicate IsSubsequence<T(==)>(a: seq<T>, b: seq<T>)
    decreases |b|
  {
    if a == [] then true
    else if b == [] then false
    else (a[0] == b[0] && IsSubsequence(a[1..], b[1..])) || IsSubsequence(a, b[1..])
  }

  /** The subsequence order is reflexive. */
  lemma {:induction false} SubsequenceOfSelf<T>(s: seq<T>)
    ensures IsSubsequence(s, s)
    decreases |s|
  {
    if s != [] {
      SubsequenceOfSelf(s[1..]);
    }
  }

  /** `includes('')` holds of every string. */
  lemma IncludesEmpty(s: string)
    ensures Includes(s, "")
  {
    assert OccursAt(s, "", 0);
  }

  /** Upper-casing keeps a string blank or non-blank. */
  lemma BlankUpper(s: string)
    ensures IsBlank(ToUpper(s)) <==> IsBlank(s)
  {
    forall i | 0 <= i < |s| ensures IsWhitespace(ToUpper(s)[i]) == IsWhitespace(s[i]) {
      UpperWhitespace(s[i]);
    }
  }

  /** A query normalizes to the empty text exactly when it is blank. */
  lemma NormalizedEmptyIffBlank(query: string)
    ensures NormalizedQuery(query) == "" <==> IsBlank(query)
  {
    TrimEmptyIffBlank(ToUpper(query));
    BlankUpper(query);
  }

  /** A team is kept exactly when its upper-cased name contains the needle. */
  lemma {:induction false} MatchingMembers(teams: seq<string>, needle: string)
    ensures forall t :: t in Matching(teams, needle) <==> t in teams && Includes(ToUpper(t), needle)
    decreases |teams|
  {
    if teams != [] {
      assert teams == [teams[0]] + teams[1..];
      MatchingMembers(teams[1..], needle);
    }
  }

  /** The kept teams keep the list's order. */
  lemma {:induction false} MatchingSubsequence(teams: seq<string>, needle: string)
    ensures IsSubsequence(Matching(teams, needle), teams)
    decreases |teams|
  {
    if teams != [] {
      var rest := Matching(teams[1..], needle);
      MatchingSubsequence(teams[1..], needle);
      if Includes(ToUpper(teams[0]), needle) {
        var r := [teams[0]] + rest;
        assert Matching(teams, needle) == r && r[0] == teams[0] && r[1..] == rest;
      } else {
        assert Matching(teams, needle) == rest;
      }
    }
  }

  /** An empty or all-whitespace query (`query.trim() === ''`) returns the whole list. */
  lemma FilterTeamsBlank(query: string)
    requires Trim(query) == ""
    ensures FilterTeams(query) == TeamsList
  {
    TrimEmptyIffBlank(query);
  }

  /** An entry is found exactly when its upper-cased name contains the normalized query. */
  lemma SearchMembers(teams: seq<string>, query: string)
    ensures forall t :: t in Search(teams, query) <==> t in teams && Includes(ToUpper(t), NormalizedQuery(query))
  {
    if IsBlank(query) {
      NormalizedEmptyIffBlank(query);
      forall t | t in teams ensures Includes(ToUpper(t), NormalizedQuery(query)) {
        IncludesEmpty(ToUpper(t));
      }
    } else {
      MatchingMembers(teams, NormalizedQuery(query));
    }
  }

  /**
   * Soundness and completeness, for every query: a club is returned exactly when it is on the
   * list and its upper-cased name contains the upper-cased, trimmed query.
   */
  lemma FilterTeamsMembers(query: string)
    ensures forall t :: t in FilterTeams(query) <==> t in TeamsList && Includes(ToUpper(t), NormalizedQuery(query))
  {
    SearchMembers(TeamsList, query);
  }

  /** The result is the list with some clubs left out, in the list's order, and no longer than it. */
  lemma FilterTeamsSubsequence(query: string)
    ensures IsSubsequence(FilterTeams(query), TeamsList)
    ensures |FilterTeams(query)| <= |TeamsList|
  {
    if IsBlank(query) {
      SubsequenceOfSelf(TeamsList);
    } else {
      MatchingSubsequence(TeamsList, NormalizedQuery(query));
    }
  }

  /** The search ignores case and surrounding whitespace: a query and its normalized form agree. */
  lemma FilterTeamsNormalized(query: string)
    ensures FilterTeams(NormalizedQuery(query)) == FilterTeams(query)
  {
    var n := NormalizedQuery(query);
    NormalizedEmptyIffBlank(query);
    NormalizedEmptyIffBlank(n);
    if !IsBlank(query) {
      var u := ToUpper(query);
      TrimUpperCommute(Trim(u));
      TrimIdempotent(u);
      TrimUpperCommute(u);
      UpperIdempotent(query);
      assert NormalizedQuery(n) == n;
    }
  }

  /**
   * The list has seventy-four entries and is not in alphabetical order: its third and fourth
   * entries share the prefix "A.S. " and then continue with 'S' and 'C'.
   */
  lemma TeamsListShape()
    ensures |TeamsList| == 74
    ensures TeamsList[2][..5] == TeamsList[3][..5] == "A.S. "
    ensures TeamsList[2][5] == 'S' && TeamsList[3][5] == 'C'
  {
    assert TeamsList[2] == "A.S. STEJARUL GRUIU" && TeamsList[3] == "A.S. C. V. MOARA VLASIEI";
  }
}
