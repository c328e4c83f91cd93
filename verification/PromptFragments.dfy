/** Which settings fragments surround an agent's base prompt, and in what order. */
module PromptFragments {
  import opened Options
  import opened Overrides

  datatype Fragment = Fragment(name: string, text: string, position: string)

  datatype LegacyPrompt = LegacyPrompt(persona: string, outputRules: string)

  datatype Settings = Settings(fragments: seq<Fragment>, legacy: Option<LegacyPrompt>)

  datatype Placed = Placed(text: string, position: string)

  function Default(position: string): string {
    if position == "" then "append" else position
  }

  function EntryOf(f: Fragment): Entry<Placed> {
    Entry(f.name, Placed(f.text, Default(f.position)))
  }

  /** One settings object's own fragments, or those its deprecated fields stand for. */
  function FragmentsOf(s: Settings): seq<Fragment> {
    if s.fragments != [] then s.fragments
    else if s.legacy.Some? then
      (if s.legacy.value.persona != "" then [Fragment("__persona__", s.legacy.value.persona, "prepend")] else [])
      + (if s.legacy.value.outputRules != "" then [Fragment("__output_rules__", s.legacy.value.outputRules, "append")] else [])
    else []
  }

  function Offered(all: seq<Settings>): seq<Fragment> {
    if all == [] then [] else Offered(all[..|all| - 1]) + FragmentsOf(all[|all| - 1])
  }

  function Entries(fs: seq<Fragment>): seq<Entry<Placed>> {
    seq(|fs|, i requires 0 <= i < |fs| => EntryOf(fs[i]))
  }

  /** The non-blank texts of one position, in order. */
  function TextsAt(r: seq<Entry<Placed>>, blank: string -> bool, prepend: bool): seq<string> {
    if r == [] then []
    else
      var v := r[|r| - 1].value;
      TextsAt(r[..|r| - 1], blank, prepend)
      + (if !blank(v.text) && (v.position == "prepend") == prepend then [v.text] else [])
  }

  /** The fragment shows at its position: its text is not blank. */
  predicate ShownAt(e: Entry<Placed>, blank: string -> bool, prepend: bool) {
    !blank(e.value.text) && (e.value.position == "prepend") == prepend
  }

  /** at lists the places of the set in increasing order. */
  ghost predicate Ascends(at: seq<nat>, places: set<nat>) {
    Increasing(at) && forall i :: i in at <==> i in places
  }

  lemma AscendsMore(at: seq<nat>, places: set<nat>, n: nat)
    requires Ascends(at, places) && forall i | i in places :: i < n
    ensures Ascends(at + [n], places + {n})
  {
    forall i, j | 0 <= i < j < |at + [n]|
      ensures (at + [n])[i] < (at + [n])[j]
    {
      assert at[i] in at;
    }
  }

  ghost function ShownPlaces(r: seq<Entry<Placed>>, blank: string -> bool, prepend: bool, n: nat): set<nat>
    requires n <= |r|
  {
    set i: nat | i < n && ShownAt(r[i], blank, prepend)
  }

  predicate AreTexts(texts: seq<string>, r: seq<Entry<Placed>>, at: seq<nat>) {
    |at| == |texts| && forall k | 0 <= k < |at| :: at[k] < |r| && texts[k] == r[at[k]].value.text
  }

  /** The texts of one position are those of the entries that show there, each once, in their order. */
  lemma {:induction false} TextsInOrder(r: seq<Entry<Placed>>, blank: string -> bool, prepend: bool, n: nat)
    returns (at: seq<nat>)
    requires n <= |r|
    ensures Ascends(at, ShownPlaces(r, blank, prepend, n)) && AreTexts(TextsAt(r[..n], blank, prepend), r, at)
  {
    if n == 0 {
      at := [];
    } else {
      at := TextsInOrder(r, blank, prepend, n - 1);
      assert r[..n][..n - 1] == r[..n - 1];
      var before := ShownPlaces(r, blank, prepend, n - 1);
      if ShownAt(r[n - 1], blank, prepend) {
        AscendsMore(at, before, n - 1);
        at := at + [n - 1];
        assert ShownPlaces(r, blank, prepend, n) == before + {n - 1};
      } else {
        assert ShownPlaces(r, blank, prepend, n) == before;
      }
    }
  }

  /** A merged fragment has the text of the last one of its name, and is prepended just when that one says so. */
  lemma PlacedAsTheLast(fs: seq<Fragment>, r: seq<Entry<Placed>>, i: nat) returns (j: nat)
    requires IsMerged(Entries(fs), r) && i < |r|
    ensures j < |fs| && fs[j].name == r[i].name && forall l | j < l < |fs| :: fs[l].name != fs[j].name
    ensures r[i].value.text == fs[j].text && (r[i].value.position == "prepend" <==> fs[j].position == "prepend")
  {
    var s := Entries(fs);
    assert r[i] in r;
    j := LastPlace(s, r[i].name);
    assert LatestAt(s, r, i) && s[j] == EntryOf(fs[j]);
    assert forall l | j < l < |fs| :: s[l].name == fs[l].name;
  }

  /** The map from names to fragments and the list of names, taken together. */
  ghost predicate Holds(fragByName: map<string, Placed>, order: seq<string>, r: seq<Entry<Placed>>) {
    && |order| == |r| && fragByName.Keys == Names(r)
    && (forall i | 0 <= i < |r| :: order[i] == r[i].name && r[i].name in fragByName && fragByName[r[i].name] == r[i].value)
  }

  method AddFragment(byName: map<string, Placed>, order: seq<string>, f: Fragment,
                     ghost fs: seq<Fragment>, ghost r: seq<Entry<Placed>>)
    returns (byName': map<string, Placed>, order': seq<string>, ghost r': seq<Entry<Placed>>)
    requires Holds(byName, order, r) && IsMerged(Entries(fs), r)
    ensures Holds(byName', order', r') && IsMerged(Entries(fs + [f]), r')
  {
    ghost var e := EntryOf(f);
    assert Entries(fs + [f]) == Entries(fs) + [e];
    OneMoreName(r, e);
    order' := order;
    if f.name !in byName {
      order' := order + [f.name];
      r' := r + [e];
      AppendsNew(Entries(fs), r, e);
    } else {
      ghost var at: nat;
      at := PlaceInMerge(r, f.name);
      r' := r[at := e];
      ReplacesOld(Entries(fs), r, e, at);
      forall i | 0 <= i < |r| && i != at
        ensures r[i].name != f.name
      {
        DistinctNames(Entries(fs), r, i, at);
      }
    }
    byName' := byName[f.name := Placed(f.text, Default(f.position))];
  }

  method AddFragments(byName0: map<string, Placed>, order0: seq<string>, fs: seq<Fragment>,
                      ghost before: seq<Fragment>, ghost r0: seq<Entry<Placed>>)
    returns (byName: map<string, Placed>, order: seq<string>, ghost r: seq<Entry<Placed>>)
    requires Holds(byName0, order0, r0) && IsMerged(Entries(before), r0)
    ensures Holds(byName, order, r) && IsMerged(Entries(before + fs), r)
  {
    byName, order, r := byName0, order0, r0;
    assert before + fs[..0] == before;
    for j := 0 to |fs|
      invariant Holds(byName, order, r) && IsMerged(Entries(before + fs[..j]), r)
    {
      byName, order, r := AddFragment(byName, order, fs[j], before + fs[..j], r);
      assert before + fs[..j] + [fs[j]] == before + fs[..j + 1];
    }
    assert fs[..|fs|] == fs;
  }

  lemma PlaceInMerge(r: seq<Entry<Placed>>, name: string) returns (at: nat)
    requires name in Names(r)
    ensures at < |r| && r[at].name == name
  {
    at := First(r, name);
  }

  /** r merges the fragments offered, and the two lists are its non-blank texts by position. */
  ghost predicate Composed(
    all: seq<Settings>, blank: string -> bool, r: seq<Entry<Placed>>, prepends: seq<string>, appends: seq<string>)
  {
    IsMerged(Entries(Offered(all)), r) && prepends == TextsAt(r, blank, true) && appends == TextsAt(r, blank, false)
  }

  /** The fragments before and behind the base prompt: each name once, at the place of its first
      occurrence, with the text and the position of its last. */
  method ComposeFragments(all: seq<Settings>, blank: string -> bool)
    returns (prepends: seq<string>, appends: seq<string>)
    ensures exists r :: Composed(all, blank, r, prepends, appends)
  {
    var byName: map<string, Placed> := map[];
    var order: seq<string> := [];
    ghost var r: seq<Entry<Placed>> := [];
    for k := 0 to |all|
      invariant Holds(byName, order, r) && IsMerged(Entries(Offered(all[..k])), r)
    {
      var fs := FragmentsOf(all[k]);
      ghost var before := Offered(all[..k]);
      assert all[..k + 1][..k] == all[..k];
      byName, order, r := AddFragments(byName, order, fs, before, r);
    }
    assert all[..|all|] == all;
    prepends, appends := Arrange(byName, order, blank, r);
    assert Composed(all, blank, r, prepends, appends);
  }

  /** Sorts the fragments that are not blank by position. */
  method Arrange(byName: map<string, Placed>, order: seq<string>, blank: string -> bool, ghost r: seq<Entry<Placed>>)
    returns (prepends: seq<string>, appends: seq<string>)
    requires Holds(byName, order, r)
    ensures prepends == TextsAt(r, blank, true) && appends == TextsAt(r, blank, false)
  {
    prepends, appends := [], [];
    for i := 0 to |order|
      invariant prepends == TextsAt(r[..i], blank, true) && appends == TextsAt(r[..i], blank, false)
    {
      assert r[..i + 1][..i] == r[..i];
      var f := byName[order[i]];
      if !blank(f.text) {
        if f.position == "prepend" {
          prepends := prepends + [f.text];
        } else {
          appends := appends + [f.text];
        }
      }
    }
    assert r[..|order|] == r;
  }

  /* ---------- the whole prompt ---------- */

  datatype Server = Server(name: string, instructions: string)

  function Join(parts: seq<string>): string {
    if parts == [] then "" else if |parts| == 1 then parts[0]
    else Join(parts[..|parts| - 1]) + "\n\n" + parts[|parts| - 1]
  }

  /** One sub-heading for each tool server that has instructions. */
  function Headings(servers: seq<Server>): seq<string> {
    if servers == [] then []
    else
      var s := servers[|servers| - 1];
      Headings(servers[..|servers| - 1])
      + (if s.instructions != "" then ["### " + s.name + "\n" + s.instructions] else [])
  }

  predicate IsHeading(text: string, s: Server) {
    text == "### " + s.name + "\n" + s.instructions
  }

  ghost function Instructing(servers: seq<Server>, n: nat): set<nat>
    requires n <= |servers|
  {
    set i: nat | i < n && servers[i].instructions != ""
  }

  predicate AreHeadings(texts: seq<string>, servers: seq<Server>, at: seq<nat>) {
    |at| == |texts| && forall k | 0 <= k < |at| :: at[k] < |servers| && IsHeading(texts[k], servers[at[k]])
  }

  /** The headings are those of the servers that have instructions, each once, in their order. */
  lemma {:induction false} HeadingsInOrder(servers: seq<Server>, n: nat) returns (at: seq<nat>)
    requires n <= |servers|
    ensures Ascends(at, Instructing(servers, n)) && AreHeadings(Headings(servers[..n]), servers, at)
  {
    if n == 0 {
      at := [];
    } else {
      at := HeadingsInOrder(servers, n - 1);
      assert servers[..n][..n - 1] == servers[..n - 1];
      var before := Instructing(servers, n - 1);
      if servers[n - 1].instructions != "" {
        AscendsMore(at, before, n - 1);
        at := at + [n - 1];
        assert Instructing(servers, n) == before + {n - 1};
      } else {
        assert Instructing(servers, n) == before;
      }
    }
  }

  function Guidance(servers: seq<Server>): seq<string> {
    if Headings(servers) == [] then [] else ["## MCP Tool Guidance\n\n" + Join(Headings(servers))]
  }

  /** What the prompt is made of: the prepended fragments, the base, the appended ones, the tool guidance,
      and always the defence against injected instructions. */
  function Parts(
    prepends: seq<string>, base: string, appends: seq<string>, servers: seq<Server>, blank: string -> bool, defence: string)
    : seq<string>
  {
    prepends + (if blank(base) then [] else [base]) + (appends + Guidance(servers)) + [defence]
  }

  /** Texts, each followed by an empty line. */
  function Lines(parts: seq<string>): string {
    if parts == [] then "" else Lines(parts[..|parts| - 1]) + parts[|parts| - 1] + "\n\n"
  }

  lemma {:induction false} LinesJoin(parts: seq<string>, more: seq<string>)
    ensures Lines(parts + more) == Lines(parts) + Lines(more)
  {
    if more == [] {
      assert parts + more == parts;
    } else {
      var n := |more| - 1;
      LinesJoin(parts, more[..n]);
      OneMoreLine(parts + more[..n], more[n]);
      OneMoreLine(more[..n], more[n]);
      assert parts + more[..n] + [more[n]] == parts + more && more[..n] + [more[n]] == more;
    }
  }

  lemma OneMoreLine(parts: seq<string>, text: string)
    ensures Lines(parts + [text]) == Lines(parts) + (text + "\n\n")
  {
    assert (parts + [text])[..|parts|] == parts;
  }

  lemma {:induction false} JoinIsLines(parts: seq<string>, last: string)
    ensures Join(parts + [last]) == Lines(parts) + last
  {
    assert (parts + [last])[..|parts|] == parts;
    if parts != [] {
      var n := |parts| - 1;
      JoinIsLines(parts[..n], parts[n]);
      assert parts[..n] + [parts[n]] == parts;
    }
  }

  /** In front of the base the prepended fragments, behind it the appended ones, then the tool guidance, and at
      the end the defence. */
  predicate Surrounds(
    prompt: string, prepends: seq<string>, base: string, appends: seq<string>, servers: seq<Server>,
    blank: string -> bool, defence: string)
  {
    prompt == Lines(prepends) + (if blank(base) then "" else base + "\n\n") + Lines(appends) + Lines(Guidance(servers)) + defence
  }

  lemma PartsSurround(
    prepends: seq<string>, base: string, appends: seq<string>, servers: seq<Server>, blank: string -> bool, defence: string)
    ensures Surrounds(Join(Parts(prepends, base, appends, servers, blank, defence)),
                      prepends, base, appends, servers, blank, defence)
  {
    var middle, guidance := if blank(base) then [] else [base], Guidance(servers);
    JoinIsLines(prepends + middle + (appends + guidance), defence);
    FourLines(prepends, middle, appends, guidance);
    OneLine(base);
  }

  lemma FourLines(a: seq<string>, b: seq<string>, c: seq<string>, d: seq<string>)
    ensures Lines(a + b + (c + d)) == Lines(a) + Lines(b) + Lines(c) + Lines(d)
  {
    LinesJoin(a + b, c + d);
    LinesJoin(a, b);
    LinesJoin(c, d);
  }

  lemma OneLine(text: string)
    ensures Lines([]) == "" && Lines([text]) == text + "\n\n"
  {
    assert [text][..0] == [];
  }

  /** A text of the list stands among its lines, and ends before they do. */
  lemma StandsInLines(parts: seq<string>, k: nat)
    requires k < |parts|
    ensures var at := |Lines(parts[..k])|;
            at + |parts[k]| <= |Lines(parts)| && Lines(parts)[at..at + |parts[k]|] == parts[k]
  {
    assert parts == parts[..k + 1] + parts[k + 1..] && parts[..k + 1][..k] == parts[..k];
    LinesJoin(parts[..k + 1], parts[k + 1..]);
    assert Lines(parts[..k + 1]) == Lines(parts[..k]) + parts[k] + "\n\n";
  }

  /** The deprecated fields, where an agent's settings have no fragments: the persona comes before the base, the
      output rules after it. */
  lemma PersonaBeforeRulesAfter(
    persona: string, rules: string, base: string, blank: string -> bool, defence: string,
    r: seq<Entry<Placed>>, prepends: seq<string>, appends: seq<string>, prompt: string)
    requires persona != "" && rules != "" && !blank(persona) && !blank(rules) && !blank(base)
    requires Composed([Settings([], Some(LegacyPrompt(persona, rules)))], blank, r, prepends, appends)
    requires Surrounds(prompt, prepends, base, appends, [], blank, defence)
    ensures prompt == persona + "\n\n" + base + "\n\n" + rules + "\n\n" + defence
  {
    DeprecatedTexts(persona, rules, blank, r, prepends, appends);
    OneLine(persona);
    OneLine(rules);
    assert Guidance([]) == [];
  }

  lemma DeprecatedTexts(
    persona: string, rules: string, blank: string -> bool, r: seq<Entry<Placed>>, prepends: seq<string>, appends: seq<string>)
    requires persona != "" && rules != "" && !blank(persona) && !blank(rules)
    requires Composed([Settings([], Some(LegacyPrompt(persona, rules)))], blank, r, prepends, appends)
    ensures prepends == [persona] && appends == [rules]
  {
    var p, o := Entry("__persona__", Placed(persona, "prepend")), Entry("__output_rules__", Placed(rules, "append"));
    DeprecatedEntries(persona, rules, p, o);
    TwoAreMerged(p, o);
    MergeIsUnique([p, o], r, [p, o]);
    TwoTexts(p, o, blank);
  }

  lemma DeprecatedEntries(persona: string, rules: string, p: Entry<Placed>, o: Entry<Placed>)
    requires persona != "" && rules != ""
    requires p == Entry("__persona__", Placed(persona, "prepend")) && o == Entry("__output_rules__", Placed(rules, "append"))
    ensures Entries(Offered([Settings([], Some(LegacyPrompt(persona, rules)))])) == [p, o] && p.name != o.name
  {
    var all := [Settings([], Some(LegacyPrompt(persona, rules)))];
    var fs := [Fragment("__persona__", persona, "prepend"), Fragment("__output_rules__", rules, "append")];
    assert Offered(all[..0]) == [];
    assert Offered(all) == fs;
    assert "__persona__"[2] != "__output_rules__"[2];
  }

  lemma TwoTexts(p: Entry<Placed>, o: Entry<Placed>, blank: string -> bool)
    requires ShownAt(p, blank, true) && ShownAt(o, blank, false)
    ensures TextsAt([p, o], blank, true) == [p.value.text] && TextsAt([p, o], blank, false) == [o.value.text]
  {
    assert [p, o][..1] == [p] && [p][..0] == [];
    assert TextsAt([], blank, true) == [] && TextsAt([], blank, false) == [];
    assert TextsAt([p], blank, true) == TextsAt([], blank, true) + [p.value.text];
    assert TextsAt([p], blank, false) == TextsAt([], blank, false) + [];
    assert TextsAt([p, o], blank, true) == TextsAt([p], blank, true) + [];
    assert TextsAt([p, o], blank, false) == TextsAt([p], blank, false) + [o.value.text];
  }

  lemma TwoAreMerged(p: Entry<Placed>, o: Entry<Placed>)
    requires p.name != o.name
    ensures IsMerged([p, o], [p, o])
  {
    assert IsMerged<Placed>([], []);
    AppendsNew([], [], p);
    assert [] + [p] == [p];
    OneMoreName([], p);
    AppendsNew([p], [p], o);
    assert [p] + [o] == [p, o];
  }

  /** Fragments of one's own hide the deprecated fields. */
  lemma FragmentsHideTheDeprecated(fs: seq<Fragment>, one: Option<LegacyPrompt>, other: Option<LegacyPrompt>, all: seq<Settings>)
    requires fs != []
    ensures Offered(all + [Settings(fs, one)]) == Offered(all + [Settings(fs, other)]) == Offered(all) + fs
  {
    assert (all + [Settings(fs, one)])[..|all|] == all && (all + [Settings(fs, other)])[..|all|] == all;
  }

  lemma EndsWithLast(parts: seq<string>, last: string)
    ensures |last| <= |Join(parts + [last])|
    ensures Join(parts + [last])[|Join(parts + [last])| - |last|..] == last
  {
    assert (parts + [last])[..|parts|] == parts;
  }

  method AppendGuidance(appends: seq<string>, servers: seq<Server>) returns (r: seq<string>)
    ensures r == appends + Guidance(servers)
  {
    var headings: seq<string> := [];
    for k := 0 to |servers|
      invariant headings == Headings(servers[..k])
    {
      assert servers[..k + 1][..k] == servers[..k];
      if servers[k].instructions != "" {
        headings := headings + ["### " + servers[k].name + "\n" + servers[k].instructions];
      }
    }
    assert servers[..|servers|] == servers;
    r := appends;
    if |headings| > 0 {
      r := r + ["## MCP Tool Guidance\n\n" + Join(headings)];
    }
  }

  /** The prompt joins its parts: fragments before and behind the base, the guidance, and at the very end,
      whatever they are, the defence. */
  method AssembleSystemPrompt(base: string, all: seq<Settings>, servers: seq<Server>, blank: string -> bool, defence: string)
    returns (prompt: string)
    ensures exists r, prepends, appends ::
              Composed(all, blank, r, prepends, appends)
              && prompt == Join(Parts(prepends, base, appends, servers, blank, defence))
              && Surrounds(prompt, prepends, base, appends, servers, blank, defence)
    ensures |defence| <= |prompt| && prompt[|prompt| - |defence|..] == defence
  {
    var prepends, appends := ComposeFragments(all, blank);
    prompt := JoinParts(prepends, base, appends, servers, blank, defence);
    PartsSurround(prepends, base, appends, servers, blank, defence);
  }

  method JoinParts(
    prepends: seq<string>, base: string, appends: seq<string>, servers: seq<Server>, blank: string -> bool, defence: string)
    returns (prompt: string)
    ensures prompt == Join(Parts(prepends, base, appends, servers, blank, defence))
    ensures |defence| <= |prompt| && prompt[|prompt| - |defence|..] == defence
  {
    var parts := prepends;
    if !blank(base) {
      parts := parts + [base];
    }
    var behind := AppendGuidance(appends, servers);
    parts := parts + behind;
    EndsWithLast(parts, defence);
    parts := parts + [defence];
    assert parts == Parts(prepends, base, appends, servers, blank, defence);
    prompt := Join(parts);
  }

  /** A name given twice keeps its first place, not its last, whatever the texts. */
  lemma OverriddenKeepsItsPlace(first: Placed, other: Placed, last: Placed)
    ensures var s := [Entry("a", first), Entry("b", other), Entry("a", last)];
            var r := [Entry("a", last), Entry("b", other)];
            IsMerged(s, r) && !InLastOrder(s, r) && !OrderedAlike(s)
  {
    var one := [Entry("a", first)];
    assert IsMerged<Placed>([], []);
    AppendsNew([], [], Entry("a", first));
    assert [] + one == one;
    OneMoreName([], Entry("a", first));
    AppendsNew(one, one, Entry("b", other));
    var two := one + [Entry("b", other)];
    ReplacesOld(two, two, Entry("a", last), 0);
    assert two + [Entry("a", last)] == [Entry("a", first), Entry("b", other), Entry("a", last)];
    assert two[0 := Entry("a", last)] == [Entry("a", last), Entry("b", other)];
    var s, r := two + [Entry("a", last)], [Entry("a", last), Entry("b", other)];
    assert s[2].name == "a" && s[1].name == "b";
    assert LastPlaceOf(s, r, 0) == 2 && LastPlaceOf(s, r, 1) == 1;
    LastOrderIff(s, r);
  }
}
