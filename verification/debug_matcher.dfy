/** Levels from the debug environment variable (debug/debug.go, level/level.go).

    The masks are matched on the characters of the variable, position by position, as the
    anchored regular expressions do; the specification splits the variable at its commas. */
module DebugMatcher {
  import opened Wrappers
  import opened Text

  const LEVELS: seq<string> := LevelNames()

  function LevelNames(): seq<string> {
    ["none", "fatal", "error", "warn", "info", "debug", "trace"]
  }

  datatype Matcher = L | OL | COL

  datatype Found = Found(level: nat, matcher: Matcher)

  // ---------------------------------------------------------------- level.FromString

  function LevelFrom(s: string, i: nat): (r: Option<nat>)
    requires i <= |LEVELS|
    ensures r.Some? ==> i <= r.value < |LEVELS| && EqualFold(s, LEVELS[r.value])
    ensures r.None? ==> forall k :: i <= k < |LEVELS| ==> !EqualFold(s, LEVELS[k])
    decreases |LEVELS| - i
  {
    if i == |LEVELS| then None
    else if EqualFold(s, LEVELS[i]) then Some(i)
    else LevelFrom(s, i + 1)
  }

  function FromString(s: string): Option<nat> {
    if s == "" then None else LevelFrom(s, 0)
  }

  // ---------------------------------------------------------------- the masks

  // The literal of a mask for one level: scope is "", "output:" or "component:output:".
  function Literal(levels: seq<string>, scope: string, k: nat): string
    requires k < |levels|
  {
    scope + levels[k]
  }

  // (?i) literal, then (?:,|$).
  predicate LiteralAt(content: string, i: nat, lit: string) {
    && i + |lit| <= |content|
    && EqualFold(content[i..i + |lit|], lit)
    && (i + |lit| == |content| || content[i + |lit|] == ',')
  }

  // The alternation of the level names: the first that matches.
  function EndAt(levels: seq<string>, content: string, i: nat, scope: string, k: nat): (r: Option<nat>)
    requires i <= |content| && k <= |levels|
    ensures r.Some? ==> i <= r.value <= |content|
    decreases |levels| - k
  {
    if k == |levels| then None
    else if LiteralAt(content, i, Literal(levels, scope, k)) then Some(i + |Literal(levels, scope, k)|)
    else EndAt(levels, content, i, scope, k + 1)
  }

  // (?:^|,) before position i.
  predicate StartsEntry(content: string, i: nat)
    requires i <= |content|
  {
    i == 0 || content[i - 1] == ','
  }

  /** The leftmost match of a mask at or after position i, as the span of the entry. */
  function Search(levels: seq<string>, content: string, i: nat, scope: string): (r: Option<(nat, nat)>)
    requires i <= |content|
    ensures r.Some? ==> i <= r.value.0 <= r.value.1 <= |content|
    decreases |content| - i
  {
    if StartsEntry(content, i) && EndAt(levels, content, i, scope, 0).Some?
    then Some((i, EndAt(levels, content, i, scope, 0).value))
    else if i == |content| then None
    else Search(levels, content, i + 1, scope)
  }

  // regexp.FindString: the match includes the commas the mask consumed; "" if none.
  function FindString(content: string, span: Option<(nat, nat)>): string
    requires span.Some? ==> span.value.0 <= span.value.1 <= |content|
  {
    match span
    case None => ""
    case Some((a, b)) =>
      content[if a > 0 then a - 1 else 0..if b < |content| then b + 1 else b]
  }

  function MatchL(content: string): string {
    var span := match EndAt(LEVELS, content, 0, "", 0) case None => None case Some(b) => Some((0, b));
    TrimCommas(FindString(content, span))
  }

  function MatchScoped(content: string, scope: string): string {
    TrimCommas(FindString(content, Search(LEVELS, content, 0, scope)))
  }

  // strings.Split(s, ":")[i], the empty string where the source would index past the end.
  function Part(s: string, i: nat): string {
    var parts := Split(s, ':');
    if i < |parts| then parts[i] else ""
  }

  function Parsed(text: string, matcher: Matcher): Option<Found> {
    match FromString(text) case None => None case Some(k) => Some(Found(k, matcher))
  }

  // What Level does with the three matches: a more specific one overrides the others.
  function Decide(l: string, ol: string, col: string): Option<Found> {
    if col != "" then Parsed(Part(col, 2), COL)
    else if ol != "" then Parsed(Part(ol, 1), OL)
    else if l != "" then Parsed(Part(l, 0), L)
    else Parsed("", L)
  }

  /** Debug.Level. */
  function Level(content: string, component: string, output: string): Option<Found> {
    if content == "" then None
    else Decide(MatchL(content), MatchScoped(content, output + ":"),
                MatchScoped(content, component + ":" + output + ":"))
  }

  // ---------------------------------------------------------------- the specification

  predicate EntryFor(levels: seq<string>, entry: string, scope: string) {
    exists k :: 0 <= k < |levels| && EqualFold(entry, Literal(levels, scope, k))
  }

  /** The first whole entry that is the scope followed by a level. */
  function FirstEntry(levels: seq<string>, entries: seq<string>, scope: string): Option<string> {
    if entries == [] then None
    else if EntryFor(levels, entries[0], scope) then Some(entries[0])
    else FirstEntry(levels, entries[1..], scope)
  }

  // Comma, colon: what would make a name span entries or fields.
  predicate Plain(name: string) {
    ',' !in name && ':' !in name
  }

  // ---------------------------------------------------------------- search is split

  predicate AllPlain(levels: seq<string>) {
    forall k :: 0 <= k < |levels| ==> Plain(levels[k]) && levels[k] != ""
  }

  lemma LevelsArePlain()
    ensures AllPlain(LEVELS)
  {
  }

  // At the start of an entry, a literal matches exactly when the whole entry is that literal.
  lemma LiteralIsEntry(content: string, i: nat, lit: string)
    requires i <= |content| && ',' !in lit
    ensures LiteralAt(content, i, lit) <==> EqualFold(content[i..i + IndexOf(content[i..], ',')], lit)
  {
    var rest := content[i..];
    var j := IndexOf(rest, ',');
    if LiteralAt(content, i, lit) {
      var n := |lit|;
      assert content[i..i + n] == rest[..n];
      forall m | 0 <= m < n
        ensures rest[m] != ','
      {
        FoldKeepsSeparators(rest[..n], lit, m);
      }
      IndexOfUnique(rest, ',', n);
    } else if EqualFold(content[i..i + j], lit) {
      FoldLength(content[i..i + j], lit);
    }
  }

  lemma {:induction false} EndIsEntry(levels: seq<string>, content: string, i: nat, scope: string, k: nat)
    requires i <= |content| && ',' !in scope && AllPlain(levels) && k <= |levels|
    ensures var entry := content[i..i + IndexOf(content[i..], ',')];
            match EndAt(levels, content, i, scope, k)
            case Some(e) =>
              e == i + |entry| && exists m :: k <= m < |levels| && EqualFold(entry, Literal(levels, scope, m))
            case None => forall m :: k <= m < |levels| ==> !EqualFold(entry, Literal(levels, scope, m))
    decreases |levels| - k
  {
    if k < |levels| {
      LiteralIsEntry(content, i, Literal(levels, scope, k));
      if LiteralAt(content, i, Literal(levels, scope, k)) {
        var entry := content[i..i + IndexOf(content[i..], ',')];
        FoldLength(entry, Literal(levels, scope, k));
      } else {
        EndIsEntry(levels, content, i, scope, k + 1);
      }
    }
  }

  // No entry starts between i and the comma that ends the entry at i.
  lemma {:induction false} SkipEntry(levels: seq<string>, content: string, i: nat, j: nat, scope: string)
    requires i <= j <= |content| && (forall m :: i <= m < j ==> content[m] != ',')
    requires !StartsEntry(content, i)
    ensures Search(levels, content, i, scope) == if j == |content| then None else Search(levels, content, j + 1, scope)
    decreases j - i
  {
    if i < j {
      SkipEntry(levels, content, i + 1, j, scope);
    }
  }

  lemma FirstEntryStep(levels: seq<string>, rest: string, scope: string)
    ensures var j := IndexOf(rest, ',');
            FirstEntry(levels, Split(rest, ','), scope) ==
              if EntryFor(levels, rest[..j], scope) then Some(rest[..j])
              else if j == |rest| then None else FirstEntry(levels, Split(rest[j + 1..], ','), scope)
  {
    var j := IndexOf(rest, ',');
    if j == |rest| {
      assert rest[..j] == rest;
    } else {
      assert Split(rest, ',')[1..] == Split(rest[j + 1..], ',');
    }
  }

  lemma EndHere(levels: seq<string>, content: string, i: nat, scope: string)
    requires i <= |content| && ',' !in scope && AllPlain(levels)
    ensures var j := i + IndexOf(content[i..], ',');
            EndAt(levels, content, i, scope, 0) == if EntryFor(levels, content[i..j], scope) then Some(j) else None
  {
    EndIsEntry(levels, content, i, scope, 0);
  }

  lemma NoCommaBefore(content: string, i: nat, j: nat)
    requires i <= |content| && j == i + IndexOf(content[i..], ',')
    ensures ',' !in content[i..j] && (j < |content| ==> content[j] == ',')
    ensures forall m :: i <= m < j ==> content[m] != ','
  {
    assert content[i..j] == content[i..][..j - i];
    assert forall m :: i <= m < j ==> content[m] == content[i..j][m - i];
  }

  // The search from the start of an entry: that entry, or the search from the next one.
  lemma SearchHit(levels: seq<string>, content: string, i: nat, j: nat, scope: string)
    requires i <= |content| && StartsEntry(content, i) && ',' !in scope && AllPlain(levels)
    requires j == i + IndexOf(content[i..], ',') && EntryFor(levels, content[i..j], scope)
    ensures Search(levels, content, i, scope) == Some((i, j))
  {
    EndHere(levels, content, i, scope);
  }

  lemma SearchMiss(levels: seq<string>, content: string, i: nat, j: nat, scope: string)
    requires i <= |content| && StartsEntry(content, i) && ',' !in scope && AllPlain(levels)
    requires j == i + IndexOf(content[i..], ',') && !EntryFor(levels, content[i..j], scope)
    ensures Search(levels, content, i, scope) == if j == |content| then None else Search(levels, content, j + 1, scope)
  {
    EndHere(levels, content, i, scope);
    NoCommaBefore(content, i, j);
    if i < j {
      SkipEntry(levels, content, i + 1, j, scope);
    }
  }

  // The span is the given entry, bounded by commas or the ends of the variable.
  predicate Spans(content: string, span: Option<(nat, nat)>, entry: Option<string>) {
    match span
    case None => entry.None?
    case Some((a, b)) =>
      && a <= b <= |content| && entry == Some(content[a..b])
      && StartsEntry(content, a) && (b == |content| || content[b] == ',')
  }

  lemma EntrySpans(content: string, i: nat, j: nat)
    requires i <= |content| && StartsEntry(content, i) && j == i + IndexOf(content[i..], ',')
    ensures Spans(content, Some((i, j)), Some(content[i..j])) && (j < |content| ==> StartsEntry(content, j + 1))
  {
    NoCommaBefore(content, i, j);
  }

  // What the search finds from position i on is the first entry there.
  predicate SearchMatches(levels: seq<string>, content: string, i: nat, scope: string)
    requires i <= |content|
  {
    Spans(content, Search(levels, content, i, scope), FirstEntry(levels, Split(content[i..], ','), scope))
  }

  lemma HitMatches(levels: seq<string>, content: string, i: nat, j: nat, scope: string)
    requires i <= |content| && StartsEntry(content, i) && ',' !in scope && AllPlain(levels)
    requires j == i + IndexOf(content[i..], ',') && EntryFor(levels, content[i..j], scope)
    ensures SearchMatches(levels, content, i, scope)
  {
    SplitStep(levels, content, i, j, scope);
    EntrySpans(content, i, j);
    SearchHit(levels, content, i, j, scope);
  }

  lemma MissMatches(levels: seq<string>, content: string, i: nat, j: nat, scope: string)
    requires i <= |content| && StartsEntry(content, i) && ',' !in scope && AllPlain(levels)
    requires j == i + IndexOf(content[i..], ',') && !EntryFor(levels, content[i..j], scope)
    requires j < |content| ==> SearchMatches(levels, content, j + 1, scope)
    ensures SearchMatches(levels, content, i, scope)
  {
    SplitStep(levels, content, i, j, scope);
    SearchMiss(levels, content, i, j, scope);
  }

  /** Scanning the characters for a mask finds the first whole entry of the comma-split. */
  lemma {:induction false} SearchIsSplit(levels: seq<string>, content: string, i: nat, scope: string)
    requires i <= |content| && StartsEntry(content, i) && ',' !in scope && AllPlain(levels)
    ensures SearchMatches(levels, content, i, scope)
    decreases |content| - i
  {
    var j := i + IndexOf(content[i..], ',');
    if EntryFor(levels, content[i..j], scope) {
      HitMatches(levels, content, i, j, scope);
    } else {
      if j < |content| {
        EntrySpans(content, i, j);
        SearchIsSplit(levels, content, j + 1, scope);
      }
      MissMatches(levels, content, i, j, scope);
    }
  }

  lemma SplitStep(levels: seq<string>, content: string, i: nat, j: nat, scope: string)
    requires i <= |content| && j == i + IndexOf(content[i..], ',')
    ensures FirstEntry(levels, Split(content[i..], ','), scope) ==
              if EntryFor(levels, content[i..j], scope) then Some(content[i..j])
              else if j == |content| then None else FirstEntry(levels, Split(content[j + 1..], ','), scope)
  {
    FirstEntryStep(levels, content[i..], scope);
    SliceOfRest(content, i, j);
  }

  lemma SliceOfRest(content: string, i: nat, j: nat)
    requires i <= j <= |content|
    ensures content[i..][..j - i] == content[i..j]
    ensures j < |content| ==> content[i..][j - i + 1..] == content[j + 1..]
  {
  }

  // ---------------------------------------------------------------- Level refines the split

  function Scope(matcher: Matcher, component: string, output: string): string {
    match matcher
    case L => ""
    case OL => output + ":"
    case COL => component + ":" + output + ":"
  }

  function Pick(entry: string, matcher: Matcher, component: string, output: string): Option<Found> {
    var scope := Scope(matcher, component, output);
    Parsed(if |scope| <= |entry| then entry[|scope|..] else "", matcher)
  }

  /** The documented meaning: the first whole entry of the most specific form, a bare level
      only as the first entry. */
  function SpecLevel(content: string, component: string, output: string): Option<Found> {
    var entries := Split(content, ',');
    var col := FirstEntry(LEVELS, entries, Scope(COL, component, output));
    var ol := FirstEntry(LEVELS, entries, Scope(OL, component, output));
    if col.Some? then Pick(col.value, COL, component, output)
    else if ol.Some? then Pick(ol.value, OL, component, output)
    else if EntryFor(LEVELS, entries[0], "") then Pick(entries[0], L, component, output)
    else None
  }

  lemma TrimAround(entry: string, before: bool, after: bool)
    requires entry != "" && ',' !in entry
    ensures TrimCommas((if before then "," else "") + entry + (if after then "," else "")) == entry
  {
    assert entry[0] in entry && entry[|entry| - 1] in entry;
    assert TrimCommas(entry) == entry;
    var s := entry + (if after then "," else "");
    assert TrimCommas(s) == entry by {
      if after {
        assert s[..|s| - 1] == entry;
      } else {
        assert s == entry;
      }
    }
    var t := (if before then "," else "") + entry + (if after then "," else "");
    if before {
      assert t[1..] == s;
    } else {
      assert t == s;
    }
  }

  // The string a match yields is the entry it spans.
  lemma FoundIsEntry(content: string, a: nat, b: nat)
    requires a < b <= |content| && StartsEntry(content, a) && (b == |content| || content[b] == ',')
    requires ',' !in content[a..b]
    ensures TrimCommas(FindString(content, Some((a, b)))) == content[a..b]
  {
    var entry := content[a..b];
    assert FindString(content, Some((a, b)))
        == (if a > 0 then "," else "") + entry + (if b < |content| then "," else "");
    TrimAround(entry, a > 0, b < |content|);
  }

  lemma {:induction false} FirstEntryFacts(entries: seq<string>, scope: string)
    requires AllPlain(LEVELS)
    ensures var e := FirstEntry(LEVELS, entries, scope);
            e.Some? ==> e.value in entries && EntryFor(LEVELS, e.value, scope) && e.value != ""
  {
    if entries != [] {
      if EntryFor(LEVELS, entries[0], scope) {
        var k :| 0 <= k < |LEVELS| && EqualFold(entries[0], Literal(LEVELS, scope, k));
        FoldLength(entries[0], Literal(LEVELS, scope, k));
      } else {
        FirstEntryFacts(entries[1..], scope);
      }
    }
  }

  lemma {:induction false} PartsHaveNoCommas(s: string, i: nat)
    requires i < |Split(s, ',')|
    ensures ',' !in Split(s, ',')[i]
    decreases |s|
  {
    var j := IndexOf(s, ',');
    if j < |s| {
      if i > 0 {
        PartsHaveNoCommas(s[j + 1..], i - 1);
      }
    } else {
      assert s[..j] == s;
    }
  }

  lemma MatchScopedIsFirst(content: string, scope: string)
    requires ',' !in scope
    ensures MatchScoped(content, scope) ==
            match FirstEntry(LEVELS, Split(content, ','), scope) case None => "" case Some(e) => e
  {
    LevelsArePlain();
    assert content[0..] == content;
    var span, entry := Search(LEVELS, content, 0, scope), FirstEntry(LEVELS, Split(content, ','), scope);
    SearchIsSplit(LEVELS, content, 0, scope);
    FirstEntryFacts(Split(content, ','), scope);
    if entry.Some? {
      var i :| 0 <= i < |Split(content, ',')| && Split(content, ',')[i] == entry.value;
      PartsHaveNoCommas(content, i);
      FoundIsEntry(content, span.value.0, span.value.1);
    }
  }

  lemma MatchLIsHead(content: string)
    ensures MatchL(content) == var head := Split(content, ',')[0]; if EntryFor(LEVELS, head, "") then head else ""
  {
    LevelsArePlain();
    assert content[0..] == content;
    EndHere(LEVELS, content, 0, "");
    NoCommaBefore(content, 0, IndexOf(content, ','));
    var head := Split(content, ',')[0];
    assert head == content[0..IndexOf(content, ',')];
    if EntryFor(LEVELS, head, "") {
      FirstEntryFacts([head], "");
      FoundIsEntry(content, 0, |head|);
    }
  }

  // The level field of an entry that folds to a scope and a level.
  lemma LevelField(entry: string, scope: string) returns (k: nat)
    requires EntryFor(LEVELS, entry, scope)
    ensures k < |LEVELS| && |scope| <= |entry| && EqualFold(entry[|scope|..], LEVELS[k]) && ':' !in entry[|scope|..]
    ensures forall i :: 0 <= i < |scope| ==> (entry[i] == ':' <==> scope[i] == ':')
    ensures EqualFold(entry[..|scope|], scope)
    ensures FromString(entry[|scope|..]).Some?
  {
    LevelsArePlain();
    k :| 0 <= k < |LEVELS| && EqualFold(entry, Literal(LEVELS, scope, k));
    var lit := Literal(LEVELS, scope, k);
    FoldLength(entry, lit);
    FoldSlice(entry, lit, |scope|, |lit|);
    FoldSlice(entry, lit, 0, |scope|);
    assert lit[|scope|..|lit|] == LEVELS[k] && entry[|scope|..|lit|] == entry[|scope|..] && lit[0..|scope|] == scope;
    forall i | 0 <= i < |scope|
      ensures entry[i] == ':' <==> scope[i] == ':'
    {
      FoldKeepsSeparators(entry, lit, i);
    }
    var level := entry[|scope|..];
    forall i | 0 <= i < |level|
      ensures level[i] != ':'
    {
      FoldKeepsSeparators(level, LEVELS[k], i);
    }
    FoldLength(level, LEVELS[k]);
  }

  function Index(matcher: Matcher): nat {
    match matcher case L => 0 case OL => 1 case COL => 2
  }

  // The fields of an entry are those of its scope, and its level.
  lemma LastPart(entry: string, matcher: Matcher, component: string, output: string)
    requires Plain(component) && Plain(output)
    requires EntryFor(LEVELS, entry, Scope(matcher, component, output))
    ensures Parsed(Part(entry, Index(matcher)), matcher) == Pick(entry, matcher, component, output)
    ensures Pick(entry, matcher, component, output).Some?
  {
    var scope := Scope(matcher, component, output);
    var k := LevelField(entry, scope);
    FieldsOf(entry, matcher, component, output);
  }

  lemma FieldsOf(entry: string, matcher: Matcher, component: string, output: string)
    requires Plain(component) && Plain(output)
    requires var scope := Scope(matcher, component, output);
             && |scope| <= |entry| && ':' !in entry[|scope|..]
             && forall i :: 0 <= i < |scope| ==> (entry[i] == ':' <==> scope[i] == ':')
    ensures Part(entry, Index(matcher)) == entry[|Scope(matcher, component, output)|..]
  {
    var level := entry[|Scope(matcher, component, output)|..];
    SplitWhole(level, ':');
    match matcher
    case L => assert entry[0..] == entry;
    case OL => FieldThen(entry, |output|, level);
    case COL => TwoFields(entry, |component|, |output|);
  }

  lemma TwoFields(s: string, m: nat, n: nat)
    requires m + n + 2 <= |s| && s[m] == ':' && s[m + n + 1] == ':'
    requires forall i :: 0 <= i < m + n + 1 && i != m ==> s[i] != ':'
    requires ':' !in s[m + n + 2..]
    ensures Split(s, ':') == [s[..m], s[m + 1..m + n + 1], s[m + n + 2..]]
  {
    FieldThen(s, m, s[m + 1..]);
    OneField(s[m + 1..], n);
    assert s[m + 1..][..n] == s[m + 1..m + n + 1];
    assert s[m + 1..][n + 1..] == s[m + n + 2..];
  }

  lemma OneField(t: string, n: nat)
    requires n < |t| && t[n] == ':' && (forall i :: 0 <= i < n ==> t[i] != ':') && ':' !in t[n + 1..]
    ensures Split(t, ':') == [t[..n], t[n + 1..]]
  {
    SplitWhole(t[n + 1..], ':');
    FieldThen(t, n, t[n + 1..]);
  }

  lemma FieldThen(s: string, n: nat, rest: string)
    requires n < |s| && s[n] == ':' && rest == s[n + 1..]
    requires forall i :: 0 <= i < n ==> s[i] != ':'
    ensures Split(s, ':') == [s[..n]] + Split(rest, ':')
  {
    assert s == s[..n] + [':'] + rest;
    SplitHead(s[..n], rest, ':');
  }

  // The three matches, as entries of the split, decide as the specification does.
  lemma DecideIsSpec(head: string, ol: Option<string>, col: Option<string>, component: string, output: string)
    requires Plain(component) && Plain(output)
    requires col.Some? ==> col.value != "" && EntryFor(LEVELS, col.value, Scope(COL, component, output))
    requires ol.Some? ==> ol.value != "" && EntryFor(LEVELS, ol.value, Scope(OL, component, output))
    requires EntryFor(LEVELS, head, "") ==> head != ""
    ensures Decide(if EntryFor(LEVELS, head, "") then head else "",
                   if ol.Some? then ol.value else "",
                   if col.Some? then col.value else "") ==
            if col.Some? then Pick(col.value, COL, component, output)
            else if ol.Some? then Pick(ol.value, OL, component, output)
            else if EntryFor(LEVELS, head, "") then Pick(head, L, component, output)
            else None
  {
    if col.Some? {
      LastPart(col.value, COL, component, output);
    } else if ol.Some? {
      LastPart(ol.value, OL, component, output);
    } else if EntryFor(LEVELS, head, "") {
      LastPart(head, L, component, output);
    }
  }

  /** Debug.Level is the documented lookup, for every content of the variable and all names
      without commas and colons. */
  lemma LevelIsSpec(content: string, component: string, output: string)
    requires Plain(component) && Plain(output)
    ensures Level(content, component, output) == SpecLevel(content, component, output)
  {
    var entries := Split(content, ',');
    LevelsArePlain();
    MatchScopedIsFirst(content, output + ":");
    MatchScopedIsFirst(content, component + ":" + output + ":");
    MatchLIsHead(content);
    FirstEntryFacts(entries, output + ":");
    FirstEntryFacts(entries, component + ":" + output + ":");
    FirstEntryFacts([entries[0]], "");
    DecideIsSpec(entries[0], FirstEntry(LEVELS, entries, output + ":"),
                 FirstEntry(LEVELS, entries, component + ":" + output + ":"), component, output);
    if content == "" {
      NothingInEmpty(entries, output + ":");
      NothingInEmpty(entries, component + ":" + output + ":");
      NothingInEmpty(entries, "");
    }
  }

  lemma NothingInEmpty(entries: seq<string>, scope: string)
    requires entries == [""] && AllPlain(LEVELS)
    ensures FirstEntry(LEVELS, entries, scope).None? && !EntryFor(LEVELS, "", scope)
  {
    FirstEntryFacts(entries, scope);
  }

  lemma PickedWhole(entry: string, matcher: Matcher, component: string, output: string)
    requires EntryFor(LEVELS, entry, Scope(matcher, component, output))
    ensures var p := Pick(entry, matcher, component, output);
            p.Some? && p.value.matcher == matcher && p.value.level < |LEVELS|
            && EqualFold(entry, Scope(matcher, component, output) + LEVELS[p.value.level])
  {
    var scope := Scope(matcher, component, output);
    var k := LevelField(entry, scope);
    var p := Pick(entry, matcher, component, output);
    FoldConcat(entry, |scope|, scope, LEVELS[p.value.level]);
  }

  /** A level that is found stands in a whole entry of its own scope, never in a prefix or
      a piece of another entry; a bare one is the first entry. */
  lemma FoundInWholeEntry(content: string, component: string, output: string)
    requires Plain(component) && Plain(output)
    requires Level(content, component, output).Some?
    ensures var f := Level(content, component, output).value;
            && f.level < |LEVELS|
            && exists i :: 0 <= i < |Split(content, ',')| && (f.matcher == L ==> i == 0)
                 && EqualFold(Split(content, ',')[i], Scope(f.matcher, component, output) + LEVELS[f.level])
  {
    LevelIsSpec(content, component, output);
    var entries := Split(content, ',');
    var col := FirstEntry(LEVELS, entries, Scope(COL, component, output));
    var ol := FirstEntry(LEVELS, entries, Scope(OL, component, output));
    LevelsArePlain();
    FirstEntryFacts(entries, Scope(COL, component, output));
    FirstEntryFacts(entries, Scope(OL, component, output));
    if col.Some? {
      PickedWhole(col.value, COL, component, output);
    } else if ol.Some? {
      PickedWhole(ol.value, OL, component, output);
    } else {
      PickedWhole(entries[0], L, component, output);
    }
  }

  lemma FoldConcat(e: string, n: nat, a: string, b: string)
    requires n <= |e| && n == |a| && EqualFold(e[..n], a) && EqualFold(e[n..], b)
    ensures EqualFold(e, a + b)
  {
    assert e == e[..n] + e[n..];
    assert Fold(e) == Fold(e[..n]) + Fold(e[n..]);
    assert Fold(a + b) == Fold(a) + Fold(b);
  }

  // ---------------------------------------------------------------- and for other names

  lemma {:induction false} EndFinds(levels: seq<string>, content: string, i: nat, scope: string, j: nat, k: nat)
    requires i <= |content| && j <= k < |levels| && LiteralAt(content, i, Literal(levels, scope, k))
    ensures EndAt(levels, content, i, scope, j).Some?
    decreases k - j
  {
    if j < k {
      EndFinds(levels, content, i, scope, j + 1, k);
    }
  }

  lemma {:induction false} SearchFinds(levels: seq<string>, content: string, i: nat, j: nat, scope: string)
    requires i <= j <= |content| && StartsEntry(content, j) && EndAt(levels, content, j, scope, 0).Some?
    ensures Search(levels, content, i, scope).Some?
    decreases j - i
  {
    if i < j {
      SearchFinds(levels, content, i + 1, j, scope);
    }
  }

  lemma {:induction false} EndSound(levels: seq<string>, content: string, i: nat, scope: string, j: nat)
    requires i <= |content| && j <= |levels| && EndAt(levels, content, i, scope, j).Some?
    ensures exists k :: j <= k < |levels| && LiteralAt(content, i, Literal(levels, scope, k))
              && EndAt(levels, content, i, scope, j) == Some(i + |Literal(levels, scope, k)|)
    decreases |levels| - j
  {
    if LiteralAt(content, i, Literal(levels, scope, j)) {
      assert EndAt(levels, content, i, scope, j) == Some(i + |Literal(levels, scope, j)|);
    } else {
      EndSound(levels, content, i, scope, j + 1);
    }
  }

  lemma {:induction false} SearchSound(levels: seq<string>, content: string, i: nat, scope: string)
    requires i <= |content| && Search(levels, content, i, scope).Some?
    ensures var (a, b) := Search(levels, content, i, scope).value;
            i <= a <= b <= |content| && EndAt(levels, content, a, scope, 0) == Some(b)
    decreases |content| - i
  {
    if !(StartsEntry(content, i) && EndAt(levels, content, i, scope, 0).Some?) {
      SearchSound(levels, content, i + 1, scope);
    }
  }

  lemma {:induction false} TrimKeeps(s: string, i: nat)
    requires i < |s| && s[i] != ','
    ensures TrimCommas(s) != ""
    decreases |s|
  {
    if s[0] == ',' {
      TrimKeeps(s[1..], i - 1);
    } else if s[|s| - 1] == ',' {
      TrimKeeps(s[..|s| - 1], i);
    }
  }

  lemma SpanIsText(content: string, a: nat, b: nat, scope: string, k: nat)
    requires scope != "" && scope[|scope| - 1] == ':' && k < |LEVELS|
    requires LiteralAt(content, a, Literal(LEVELS, scope, k)) && b == a + |Literal(LEVELS, scope, k)|
    ensures TrimCommas(FindString(content, Some((a, b)))) != ""
  {
    var n := |scope| - 1;
    FoldKeepsSeparators(content[a..b], Literal(LEVELS, scope, k), n);
    assert content[a..b][n] == content[a + n];
    var start := if a > 0 then a - 1 else 0;
    TrimKeeps(FindString(content, Some((a, b))), a + n - start);
  }

  lemma SearchSpan(content: string, scope: string, i: nat, k: nat) returns (a: nat, b: nat, m: nat)
    requires k < |LEVELS| && i <= |content|
    requires StartsEntry(content, i) && LiteralAt(content, i, Literal(LEVELS, scope, k))
    ensures a <= b <= |content| && Search(LEVELS, content, 0, scope) == Some((a, b))
    ensures m < |LEVELS| && LiteralAt(content, a, Literal(LEVELS, scope, m)) && b == a + |Literal(LEVELS, scope, m)|
  {
    EndFinds(LEVELS, content, i, scope, 0, k);
    SearchFinds(LEVELS, content, 0, i, scope);
    SearchSound(LEVELS, content, 0, scope);
    var span := Search(LEVELS, content, 0, scope).value;
    a, b := span.0, span.1;
    EndSound(LEVELS, content, a, scope, 0);
    m :| 0 <= m < |LEVELS| && LiteralAt(content, a, Literal(LEVELS, scope, m)) && b == a + |Literal(LEVELS, scope, m)|;
  }

  // A scope that a mask finds anywhere yields a string.
  lemma ScopeIsFound(content: string, scope: string, i: nat, k: nat)
    requires scope != "" && scope[|scope| - 1] == ':' && k < |LEVELS|
    requires i <= |content| && StartsEntry(content, i) && LiteralAt(content, i, Literal(LEVELS, scope, k))
    ensures MatchScoped(content, scope) != ""
  {
    var a, b, m := SearchSpan(content, scope, i, k);
    SpanIsText(content, a, b, scope, m);
  }

  // No entry is a scope that contains a comma.
  lemma {:induction false} NoEntryWithComma(entries: seq<string>, scope: string)
    requires ',' in scope && forall i :: 0 <= i < |entries| ==> ',' !in entries[i]
    ensures FirstEntry(LEVELS, entries, scope).None?
  {
    if entries != [] {
      if EntryFor(LEVELS, entries[0], scope) {
        var k :| 0 <= k < |LEVELS| && EqualFold(entries[0], Literal(LEVELS, scope, k));
        var i :| 0 <= i < |scope| && scope[i] == ',';
        FoldLength(entries[0], Literal(LEVELS, scope, k));
        assert Literal(LEVELS, scope, k)[i] == ',';
        FoldKeepsSeparators(entries[0], Literal(LEVELS, scope, k), i);
      }
      NoEntryWithComma(entries[1..], scope);
    }
  }

  lemma PickIsLevel(entry: string, matcher: Matcher, component: string, output: string)
    requires EntryFor(LEVELS, entry, Scope(matcher, component, output))
    ensures var p := Pick(entry, matcher, component, output); p.Some? && p.value.matcher == matcher
  {
    var k := LevelField(entry, Scope(matcher, component, output));
  }

  // A bare level, and then the rest.
  function InfoThen(rest: string): (content: string)
    ensures |content| == |rest| + 5 && content[4] == ',' && content[5..] == rest
  {
    "info" + [','] + rest
  }

  lemma InfoFirst(rest: string)
    ensures Split(InfoThen(rest), ',')[0] == "info"
  {
    SplitHead("info", rest, ',');
  }

  // With a comma in a name the mask matches across entries, so Level finds a level of the
  // component, or none...
  lemma CommaLevel(content: string, component: string, output: string, scope: string)
    requires scope == Scope(COL, component, output) && content == InfoThen(scope + "info")
    ensures var r := Level(content, component, output); r.Some? ==> r.value.matcher == COL
  {
    assert LEVELS[4] == "info" && Literal(LEVELS, scope, 4) == scope + "info";
    assert content[5..5 + |scope + "info"|] == content[5..];
    ScopeIsFound(content, scope, 5, 4);
  }

  // ... where the specification finds another.
  lemma CommaSpec(content: string, component: string, output: string)
    requires ',' in Scope(COL, component, output) && Split(content, ',')[0] == "info"
    ensures var r := SpecLevel(content, component, output); r.Some? && r.value.matcher != COL
  {
    var entries := Split(content, ',');
    forall i | 0 <= i < |entries|
      ensures ',' !in entries[i]
    {
      PartsHaveNoCommas(content, i);
    }
    NoEntryWithComma(entries, Scope(COL, component, output));
    BareInfo(entries[0], component, output);
    OutputEntry(entries, component, output);
  }

  lemma OutputEntry(entries: seq<string>, component: string, output: string)
    ensures var ol := FirstEntry(LEVELS, entries, Scope(OL, component, output));
            ol.Some? ==> var p := Pick(ol.value, OL, component, output); p.Some? && p.value.matcher == OL
  {
    LevelsArePlain();
    FirstEntryFacts(entries, Scope(OL, component, output));
    var ol := FirstEntry(LEVELS, entries, Scope(OL, component, output));
    if ol.Some? {
      PickIsLevel(ol.value, OL, component, output);
    }
  }

  lemma BareInfo(entry: string, component: string, output: string)
    requires entry == "info"
    ensures EntryFor(LEVELS, entry, "")
    ensures var p := Pick(entry, L, component, output); p.Some? && p.value.matcher == L
  {
    assert LEVELS[4] == "info" && Literal(LEVELS, "", 4) == "info";
    assert EqualFold(entry, Literal(LEVELS, "", 4));
    PickIsLevel(entry, L, component, output);
  }

  lemma ScopeHasComma(component: string, output: string)
    requires ',' in component || ',' in output
    ensures ',' in Scope(COL, component, output)
  {
    var scope := Scope(COL, component, output);
    if ',' in component {
      var i :| 0 <= i < |component| && component[i] == ',';
      assert scope[i] == ',';
    } else {
      var i :| 0 <= i < |output| && output[i] == ',';
      assert scope[|component| + 1 + i] == ',';
    }
  }

  predicate Agree(content: string, component: string, output: string) {
    Level(content, component, output) == SpecLevel(content, component, output)
  }

  lemma CommaBreaksSpec(component: string, output: string)
    requires ',' in component || ',' in output
    ensures exists content :: !Agree(content, component, output)
  {
    var scope := Scope(COL, component, output);
    var content := InfoThen(scope + "info");
    ScopeHasComma(component, output);
    CommaLevel(content, component, output, scope);
    InfoFirst(scope + "info");
    CommaSpec(content, component, output);
    assert !Agree(content, component, output);
  }

  lemma {:induction false} SplitSnoc(s: string, t: string, sep: char)
    requires sep !in t
    ensures Split(s + [sep] + t, sep) == Split(s, sep) + [t]
    decreases |s|
  {
    var i := IndexOf(s, sep);
    if i == |s| {
      SplitPair(s, t, sep);
    } else {
      assert s == s[..i] + [sep] + s[i + 1..];
      SplitSnoc(s[i + 1..], t, sep);
      SplitSnocStep(s[..i], s[i + 1..], t, sep);
    }
  }

  lemma SplitSnocStep(first: string, tail: string, t: string, sep: char)
    requires sep !in first && Split(tail + [sep] + t, sep) == Split(tail, sep) + [t]
    ensures Split((first + [sep] + tail) + [sep] + t, sep) == Split(first + [sep] + tail, sep) + [t]
  {
    SameText(first, sep, tail, t);
    SplitHead(first, tail, sep);
    SplitHead(first, tail + [sep] + t, sep);
    Associative(first, Split(tail, sep), t);
  }

  lemma SameText(first: string, sep: char, tail: string, t: string)
    ensures (first + [sep] + tail) + [sep] + t == first + [sep] + (tail + [sep] + t)
  {
  }

  lemma Associative(first: string, middle: seq<string>, last: string)
    ensures [first] + (middle + [last]) == ([first] + middle) + [last]
  {
  }

  lemma SplitPair(s: string, t: string, sep: char)
    requires sep !in t && IndexOf(s, sep) == |s|
    ensures Split(s + [sep] + t, sep) == [s] + [t] && Split(s, sep) == [s]
  {
    assert s[..|s|] == s;
    SplitHead(s, t, sep);
    SplitWhole(t, sep);
  }

  lemma SplitFirst(s: string, t: string, sep: char)
    requires IndexOf(s, sep) < |s|
    ensures var i := IndexOf(s, sep);
            Split(s + [sep] + t, sep) == [s[..i]] + Split(s[i + 1..] + [sep] + t, sep)
  {
    var i := IndexOf(s, sep);
    assert s + [sep] + t == s[..i] + [sep] + (s[i + 1..] + [sep] + t);
    SplitHead(s[..i], s[i + 1..] + [sep] + t, sep);
  }

  lemma {:induction false} PartsCount(s: string, i: nat)
    requires i < |s| && s[i] == ':'
    ensures |Split(s, ':')| >= 2
  {
    assert IndexOf(s, ':') <= i;
  }

  lemma PartsOfTwo(a: string, b: string)
    requires ':' in a || ':' in b
    ensures |Split(a + [':'] + b, ':')| >= 3
  {
    var i := IndexOf(a, ':');
    if i == |a| {
      assert a[..i] == a;
      SplitHead(a, b, ':');
      var j :| 0 <= j < |b| && b[j] == ':';
      PartsCount(b, j);
    } else {
      PartsFrom(a, i, b);
    }
  }

  lemma PartsFrom(a: string, i: nat, b: string)
    requires i == IndexOf(a, ':') < |a|
    ensures |Split(a + [':'] + b, ':')| >= 3
  {
    SplitFirst(a, b, ':');
    var rest := a[i + 1..] + [':'] + b;
    assert rest[|a| - i - 1] == ':';
    PartsCount(rest, |a| - i - 1);
  }

  // What a colon in a name makes Level read, whatever level the entry states.
  lemma ColonReads(component: string, output: string, k: nat)
    requires ',' !in component && ',' !in output && (':' in component || ':' in output) && k < |LEVELS|
    ensures var scope := Scope(COL, component, output);
            var parts := Split(component + [':'] + output, ':');
            && |parts| >= 3
            && Level(scope + LEVELS[k], component, output) == Parsed(parts[2], COL)
            && SpecLevel(scope + LEVELS[k], component, output) == Parsed(LEVELS[k], COL)
  {
    var scope := Scope(COL, component, output);
    var content := scope + LEVELS[k];
    LevelsArePlain();
    assert ',' !in scope && ',' !in content;
    SplitWhole(content, ',');
    assert EqualFold(content, Literal(LEVELS, scope, k));
    assert EntryFor(LEVELS, content, scope);
    MatchScopedIsFirst(content, scope);
    PartsOfTwo(component, output);
    SplitSnoc(component + [':'] + output, LEVELS[k], ':');
    assert content == (component + [':'] + output) + [':'] + LEVELS[k];
    assert content[|scope|..] == LEVELS[k];
  }

  lemma OwnLevel(k: nat)
    requires k == 3 || k == 4
    ensures FromString(LEVELS[k]) == Some(k)
  {
    var r := LevelFrom(LEVELS[k], 0);
    assert EqualFold(LEVELS[k], LEVELS[k]);
    if r.Some? && r.value != k {
      assert Fold(LEVELS[k])[0] == Fold(LEVELS[r.value])[0];
    }
  }

  lemma ColonBreaksSpec(component: string, output: string)
    requires ',' !in component && ',' !in output && (':' in component || ':' in output)
    ensures exists content :: !Agree(content, component, output)
  {
    var scope := Scope(COL, component, output);
    ColonReads(component, output, 3);
    ColonReads(component, output, 4);
    OwnLevel(3);
    OwnLevel(4);
    assert !Agree(scope + LEVELS[3], component, output) || !Agree(scope + LEVELS[4], component, output);
  }

  /** Level is the documented lookup for every content of the variable exactly when neither
      name contains a comma or a colon: with one, an entry for the very pair is misread. */
  lemma LevelIsSpecIff(component: string, output: string)
    ensures (forall content :: Agree(content, component, output)) <==> Plain(component) && Plain(output)
  {
    if Plain(component) && Plain(output) {
      forall content
        ensures Agree(content, component, output)
      {
        LevelIsSpec(content, component, output);
      }
    } else if ',' in component || ',' in output {
      CommaBreaksSpec(component, output);
    } else {
      ColonBreaksSpec(component, output);
    }
  }
}
