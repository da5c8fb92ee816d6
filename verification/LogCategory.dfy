/**
 * Logger categories: the rules that fit a category, the level bitmap that short-cuts them,
 * and the update, commit and rollback of a whole table of categories.
 */
module LogCategory {
  import opened LogRule
  import opened Options

  /** Every rule names a category, as a rule that zlog_rule_new made does. */
  predicate Named(rules: seq<Rule>) {
    forall i :: 0 <= i < |rules| ==> rules[i].category != ""
  }

  function IfMatching(r: Rule, name: string): seq<Rule>
    requires r.category != ""
  {
    if MatchCategory(r.category, name) then [r] else []
  }

  /** The matching rules, in order. */
  function Matching(rules: seq<Rule>, name: string): (r: seq<Rule>)
    requires Named(rules)
  {
    if rules == [] then [] else Matching(rules[..|rules| - 1], name) + IfMatching(rules[|rules| - 1], name)
  }

  /** The last wastebin rule. */
  function Wastebin(rules: seq<Rule>): (r: seq<Rule>)
    ensures |r| <= 1
  {
    if rules == [] then []
    else if IsWastebin(rules[|rules| - 1]) then [rules[|rules| - 1]]
    else Wastebin(rules[..|rules| - 1])
  }

  function Fitted(rules: seq<Rule>, name: string): seq<Rule>
    requires Named(rules)
  {
    if |Matching(rules, name)| > 0 then Matching(rules, name) else Wastebin(rules)
  }

  function Or(b: Bitmap, c: Bitmap): Bitmap {
    seq(32, i requires 0 <= i < 32 => b[i] | c[i])
  }

  function Union(rules: seq<Rule>): Bitmap {
    if rules == [] then NO_LEVELS else Or(Union(rules[..|rules| - 1]), rules[|rules| - 1].bitmap)
  }

  lemma UnionSnoc(rules: seq<Rule>, r: Rule)
    ensures Union(rules + [r]) == Or(Union(rules), r.bitmap)
  {
    assert (rules + [r])[..|rules|] == rules;
  }

  ghost predicate AllWellMade(rules: seq<Rule>) {
    forall i :: 0 <= i < |rules| ==> WellMade(rules[i])
  }

  /** Does some rule of the list put out an event of this level? */
  ghost predicate SomeOutputs(rules: seq<Rule>, lv: int) {
    exists i :: 0 <= i < |rules| && Outputs(rules[i].compareChar, rules[i].level, lv)
  }

  lemma OrBit(b: Bitmap, c: Bitmap, lv: nat)
    requires lv < 256
    ensures Bit(Or(b, c), lv) <==> Bit(b, lv) || Bit(c, lv)
  {
    BitOps(b[lv / 8], c[lv / 8], lv % 8);
  }

  lemma SomeOutputsSnoc(rules: seq<Rule>, r: Rule, lv: int)
    ensures SomeOutputs(rules + [r], lv) <==> SomeOutputs(rules, lv) || Outputs(r.compareChar, r.level, lv)
  {
    var all := rules + [r];
    assert all[|rules|] == r;
    assert forall i :: 0 <= i < |rules| ==> all[i] == rules[i];
  }

  lemma {:induction false} UnionBit(rules: seq<Rule>, lv: nat)
    requires AllWellMade(rules) && lv < 256
    ensures Bit(Union(rules), lv) <==> SomeOutputs(rules, lv)
  {
    if rules == [] {
      BitOps(0, 0, lv % 8);
    } else {
      var front, last := rules[..|rules| - 1], rules[|rules| - 1];
      UnionBit(front, lv);
      assert rules == front + [last];
      OrBit(Union(front), last.bitmap, lv);
      SomeOutputsSnoc(front, last, lv);
    }
  }

  lemma {:induction false} FittedComeFromRules(rules: seq<Rule>, name: string)
    requires Named(rules)
    ensures forall x :: x in Matching(rules, name) <==> x in rules && MatchCategory(x.category, name)
    ensures Wastebin(rules) == [] <==> forall x :: x in rules ==> !IsWastebin(x)
    ensures forall x :: x in Wastebin(rules) ==> x in rules && IsWastebin(x)
  {
    if rules != [] {
      FittedComeFromRules(rules[..|rules| - 1], name);
      assert rules == rules[..|rules| - 1] + [rules[|rules| - 1]];
    }
  }

  ghost predicate IsLastWastebin(rules: seq<Rule>, k: int) {
    && 0 <= k < |rules| && IsWastebin(rules[k])
    && forall j :: k < j < |rules| ==> !IsWastebin(rules[j])
  }

  /** The wastebin rule is the last one: every later rule is of another category. */
  lemma {:induction false} WastebinIsLast(rules: seq<Rule>)
    requires Wastebin(rules) != []
    ensures exists k :: IsLastWastebin(rules, k) && Wastebin(rules) == [rules[k]]
  {
    var n := |rules| - 1;
    if IsWastebin(rules[n]) {
      assert IsLastWastebin(rules, n);
    } else {
      WastebinIsLast(rules[..n]);
      var k :| IsLastWastebin(rules[..n], k) && Wastebin(rules[..n]) == [rules[..n][k]];
      assert forall j :: k < j < n ==> rules[..n][j] == rules[j];
      assert IsLastWastebin(rules, k);
    }
  }

  // What fits a category, in terms of the rule list alone.

  /** The places of exactly those of the first n rules that match the name, in list order. */
  ghost predicate AreMatches(rules: seq<Rule>, n: nat, name: string, at: seq<int>)
    requires Named(rules) && n <= |rules|
  {
    && (forall i, j :: 0 <= i < j < |at| ==> at[i] < at[j])
    && (forall i :: 0 <= i < |at| ==> 0 <= at[i] < n && MatchCategory(rules[at[i]].category, name))
    && (forall k :: 0 <= k < n && MatchCategory(rules[k].category, name) ==> k in at)
  }

  /** The list holds the rules at those places, in their order. */
  ghost predicate IsPick(rules: seq<Rule>, at: seq<int>, list: seq<Rule>) {
    |list| == |at| && forall i :: 0 <= i < |at| ==> 0 <= at[i] < |rules| && list[i] == rules[at[i]]
  }

  /** The list is exactly the matching rules, each as often as the rule list holds it and in its order. */
  ghost predicate IsMatchList(rules: seq<Rule>, name: string, list: seq<Rule>)
    requires Named(rules)
  {
    exists at :: AreMatches(rules, |rules|, name, at) && IsPick(rules, at, list)
  }

  ghost predicate SomeMatches(rules: seq<Rule>, name: string)
    requires Named(rules)
  {
    exists k :: 0 <= k < |rules| && MatchCategory(rules[k].category, name)
  }

  ghost function Places(rules: seq<Rule>, n: nat, name: string): seq<int>
    requires Named(rules) && n <= |rules|
  {
    if n == 0 then []
    else Places(rules, n - 1, name) + if MatchCategory(rules[n - 1].category, name) then [n - 1] else []
  }

  lemma OneMoreRule(rules: seq<Rule>, n: nat, name: string, at: seq<int>)
    requires Named(rules) && n < |rules| && AreMatches(rules, n, name, at)
    ensures AreMatches(rules, n + 1, name, at + if MatchCategory(rules[n].category, name) then [n] else [])
  {
    assert forall k :: k in at + [n] <==> k in at || k == n;
  }

  lemma {:induction false} PlacesAreMatches(rules: seq<Rule>, n: nat, name: string)
    requires Named(rules) && n <= |rules|
    ensures AreMatches(rules, n, name, Places(rules, n, name))
  {
    if n > 0 {
      PlacesAreMatches(rules, n - 1, name);
      OneMoreRule(rules, n - 1, name, Places(rules, n - 1, name));
    }
  }

  lemma {:induction false} MatchingPicks(rules: seq<Rule>, n: nat, name: string)
    requires Named(rules) && n <= |rules|
    ensures IsPick(rules, Places(rules, n, name), Matching(rules[..n], name))
  {
    if n > 0 {
      MatchingStep(rules, n - 1, name);
      MatchingPicks(rules, n - 1, name);
    }
  }

  lemma SomeMatching(rules: seq<Rule>, name: string)
    requires Named(rules)
    ensures SomeMatches(rules, name) <==> Matching(rules, name) != []
  {
    FittedComeFromRules(rules, name);
    if SomeMatches(rules, name) {
      var k: nat :| k < |rules| && MatchCategory(rules[k].category, name);
      assert rules[k] in Matching(rules, name);
    }
    if Matching(rules, name) != [] {
      var x := Matching(rules, name)[0];
      assert x in rules && MatchCategory(x.category, name);
    }
  }

  /**
   When some rule matches the name, those that match fit, each as often as the list holds it and in list order;
   when none does, the last wastebin rule alone fits, and nothing without one.
   */
  lemma FittedMeans(rules: seq<Rule>, name: string)
    requires Named(rules)
    ensures SomeMatches(rules, name) ==> IsMatchList(rules, name, Fitted(rules, name))
    ensures !SomeMatches(rules, name) ==>
              if exists k :: IsLastWastebin(rules, k)
              then exists k :: IsLastWastebin(rules, k) && Fitted(rules, name) == [rules[k]]
              else Fitted(rules, name) == []
  {
    SomeMatching(rules, name);
    PlacesAreMatches(rules, |rules|, name);
    MatchingPicks(rules, |rules|, name);
    assert rules[..|rules|] == rules;
    WastebinOrNone(rules);
  }

  lemma WastebinOrNone(rules: seq<Rule>)
    ensures if exists k :: IsLastWastebin(rules, k)
            then exists k :: IsLastWastebin(rules, k) && Wastebin(rules) == [rules[k]]
            else Wastebin(rules) == []
  {
    if Wastebin(rules) != [] {
      WastebinIsLast(rules);
    } else if k :| IsLastWastebin(rules, k) {
      WastebinIsFound(rules, k);
      assert false;
    }
  }

  lemma {:induction false} WastebinIsFound(rules: seq<Rule>, k: nat)
    requires k < |rules| && IsWastebin(rules[k])
    ensures Wastebin(rules) != []
    decreases |rules|
  {
    if k < |rules| - 1 {
      WastebinIsFound(rules[..|rules| - 1], k);
    }
  }

  /** Which levels a category drops: those that no matching rule, or without one the wastebin, puts out. */
  lemma NeedlessLevels(rules: seq<Rule>, name: string, lv: nat)
    requires AllWellMade(rules) && lv < 256
    ensures !Bit(Union(Fitted(rules, name)), lv) <==> !SomeOutputs(Fitted(rules, name), lv)
  {
    FittedComeFromRules(rules, name);
    UnionBit(Fitted(rules, name), lv);
  }

  /** What a category holds. */
  datatype State = State(fit: Option<seq<Rule>>, bitmap: Bitmap,
                         fitBackup: Option<seq<Rule>>, bitmapBackup: Bitmap)

  /** A category made from a rule list, with nothing to commit or roll back. */
  function Made(rules: seq<Rule>, name: string): State
    requires Named(rules)
  {
    State(Some(Fitted(rules, name)), Union(Fitted(rules, name)), None, NO_LEVELS)
  }

  class Category {
    const name: string
    var fitRules: Option<seq<Rule>>
    var levelBitmap: Bitmap
    var fitRulesBackup: Option<seq<Rule>>
    var levelBitmapBackup: Bitmap

    ghost function Now(): State
      reads this
    {
      State(fitRules, levelBitmap, fitRulesBackup, levelBitmapBackup)
    }

    /** zlog_category_new; room is the number of list operations before memory runs out. */
    constructor (name: string, rules: seq<Rule>, room: nat)
      requires Named(rules)
      ensures this.name == name
      ensures if room > |Fitted(rules, name)| then Now() == Made(rules, name) else fitRules == None
    {
      this.name := name;
      fitRules, fitRulesBackup := None, None;
      levelBitmap, levelBitmapBackup := NO_LEVELS, NO_LEVELS;
      new;
      var ok := ObtainRules(rules, room);
    }

    method OverlapBitmap(r: Rule)
      modifies this`levelBitmap
      ensures levelBitmap == Or(old(levelBitmap), r.bitmap)
    {
      var i := 0;
      while i < 32
        invariant 0 <= i <= 32
        invariant forall k :: 0 <= k < 32 ==>
          levelBitmap[k] == if k < i then old(levelBitmap)[k] | r.bitmap[k] else old(levelBitmap)[k]
      {
        levelBitmap := levelBitmap[i := levelBitmap[i] | r.bitmap[i]];
        i := i + 1;
      }
    }

    /** zlog_category_obtain_rules; room is the number of list operations before memory runs out. */
    method ObtainRules(rules: seq<Rule>, room: nat) returns (ok: bool)
      requires Named(rules)
      modifies this`fitRules, this`levelBitmap
      ensures ok ==> fitRules == Some(Fitted(rules, name)) && levelBitmap == Union(Fitted(rules, name))
      ensures !ok ==> fitRules == None
      ensures ok <==> room > |Fitted(rules, name)|
    {
      levelBitmap := NO_LEVELS;
      fitRules := None;
      if room == 0 {
        return false;
      }
      fitRules := Some([]);
      var wastebin;
      ok, wastebin := AddMatching(rules, room);
      if ok && fitRules == Some([]) && wastebin.Some? {
        ok := AddRule(wastebin.value, room);
        assert [] + [wastebin.value] == Wastebin(rules);
      }
    }

    /** A fitting rule is added, and its levels with it. */
    method AddRule(r: Rule, room: nat) returns (ok: bool)
      requires fitRules.Some? && levelBitmap == Union(fitRules.value) && |fitRules.value| < room
      modifies this`fitRules, this`levelBitmap
      ensures ok <==> |old(fitRules).value| + 1 < room
      ensures ok ==> fitRules == Some(old(fitRules).value + [r]) && levelBitmap == Union(fitRules.value)
      ensures !ok ==> fitRules == None
    {
      if |fitRules.value| + 1 == room {
        fitRules := None;
        return false;
      }
      UnionSnoc(fitRules.value, r);
      fitRules := Some(fitRules.value + [r]);
      OverlapBitmap(r);
      ok := true;
    }

    method AddMatching(rules: seq<Rule>, room: nat) returns (ok: bool, wastebin: Option<Rule>)
      requires Named(rules) && room > 0 && fitRules == Some([]) && levelBitmap == NO_LEVELS
      modifies this`fitRules, this`levelBitmap
      ensures ok ==> fitRules == Some(Matching(rules, name)) && levelBitmap == Union(Matching(rules, name))
      ensures ok ==> wastebin == if Wastebin(rules) == [] then None else Some(Wastebin(rules)[0])
      ensures !ok ==> fitRules == None
      ensures ok <==> room > |Matching(rules, name)|
    {
      var i := 0;
      wastebin := None;
      while i < |rules|
        invariant 0 <= i <= |rules|
        invariant fitRules == Some(Matching(rules[..i], name)) && room > |fitRules.value|
        invariant wastebin == if Wastebin(rules[..i]) == [] then None else Some(Wastebin(rules[..i])[0])
        invariant levelBitmap == Union(fitRules.value)
      {
        var r := rules[i];
        MatchingStep(rules, i, name);
        if MatchCategory(r.category, name) {
          ok := AddRule(r, room);
          if !ok {
            MatchingGrows(rules, i + 1, name);
            return;
          }
        }
        if IsWastebin(r) {
          wastebin := Some(r);
        }
        i := i + 1;
      }
      assert rules[..i] == rules;
      ok := true;
    }

    /** zlog_category_update_rules */
    method Update(rules: seq<Rule>, room: nat) returns (ok: bool)
      requires Named(rules)
      modifies this
      ensures Updated(old(Now()), Now(), rules, name, ok)
      ensures ok <==> room > |Fitted(rules, name)|
    {
      fitRulesBackup := fitRules;
      fitRules := None;
      levelBitmapBackup := levelBitmap;
      ok := ObtainRules(rules, room);
      if !ok {
        fitRules := None;
      }
    }

    /** zlog_category_commit_rules */
    method Commit()
      modifies this
      ensures Now() == Committed(old(Now()))
    {
      if fitRulesBackup.None? {
        return;
      }
      fitRulesBackup := None;
      levelBitmapBackup := NO_LEVELS;
    }

    /** zlog_category_rollback_rules */
    method Rollback()
      modifies this
      ensures Now() == RolledBack(old(Now()))
    {
      if fitRulesBackup.None? {
        return;
      }
      fitRules := fitRulesBackup;
      fitRulesBackup := None;
      levelBitmap := levelBitmapBackup;
      levelBitmapBackup := NO_LEVELS;
    }
  }

  lemma MatchingStep(rules: seq<Rule>, i: nat, name: string)
    requires Named(rules) && i < |rules|
    ensures var front := Matching(rules[..i], name);
      Matching(rules[..i + 1], name) == if MatchCategory(rules[i].category, name) then front + [rules[i]] else front
    ensures Wastebin(rules[..i + 1]) == if IsWastebin(rules[i]) then [rules[i]] else Wastebin(rules[..i])
  {
    assert rules[..i + 1][..i] == rules[..i];
  }

  lemma {:induction false} MatchingGrows(rules: seq<Rule>, k: nat, name: string)
    requires k <= |rules| && Named(rules)
    ensures |Matching(rules[..k], name)| <= |Matching(rules, name)|
    decreases |rules| - k
  {
    if k < |rules| {
      assert rules[..k + 1][..k] == rules[..k];
      MatchingGrows(rules, k + 1, name);
    } else {
      assert rules[..k] == rules;
    }
  }

  // One category: what the three operations do to its state.

  /** An update that failed left no rules and any bitmap. */
  ghost predicate Updated(before: State, after: State, rules: seq<Rule>, name: string, ok: bool)
    requires Named(rules)
  {
    && after.fitBackup == before.fit && after.bitmapBackup == before.bitmap
    && (if ok then after.fit == Some(Fitted(rules, name)) && after.bitmap == Union(Fitted(rules, name))
        else after.fit == None)
  }

  function Committed(c: State): State {
    if c.fitBackup.None? then c else State(c.fit, c.bitmap, None, NO_LEVELS)
  }

  function RolledBack(c: State): State {
    if c.fitBackup.None? then c else State(c.fitBackup, c.bitmapBackup, None, NO_LEVELS)
  }

  /** Has rules, and nothing to commit or roll back. */
  predicate Settled(c: State) {
    c.fit.Some? && c.fitBackup.None? && c.bitmapBackup == NO_LEVELS
  }

  /** Rolling back undoes every update, whatever came of it, exactly when the category was settled. */
  lemma RollbackUndoes(c: State, rules: seq<Rule>, name: string)
    requires Named(rules)
    ensures Settled(c) <==>
      forall u, ok :: Updated(c, u, rules, name, ok) ==> RolledBack(u) == c
  {
    var u := State(Some(Fitted(rules, name)), Union(Fitted(rules, name)), c.fit, c.bitmap);
    assert Updated(c, u, rules, name, true);
  }

  // The whole table, in the order in which it is walked.

  ghost function States(cs: seq<Category>): (t: seq<State>)
    reads set c | c in cs
    ensures |t| == |cs| && forall i :: 0 <= i < |cs| ==> t[i] == cs[i].Now()
  {
    seq(|cs|, i requires 0 <= i < |cs| reads set c | c in cs => cs[i].Now())
  }

  ghost function Names(cs: seq<Category>): (n: seq<string>)
    ensures |n| == |cs| && forall i :: 0 <= i < |cs| ==> n[i] == cs[i].name
  {
    seq(|cs|, i requires 0 <= i < |cs| => cs[i].name)
  }

  predicate Distinct<T(==)>(s: seq<T>) {
    forall i, j :: 0 <= i < j < |s| ==> s[i] != s[j]
  }

  /** The first k categories updated, the one at k failed if there is one, the rest as they were. */
  ghost predicate UpdatedUpTo(before: seq<State>, after: seq<State>, rules: seq<Rule>, names: seq<string>, k: nat)
    requires Named(rules)
  {
    && |before| == |after| == |names|
    && (forall i :: 0 <= i < |before| && i < k ==> Updated(before[i], after[i], rules, names[i], true))
    && (k < |before| ==> Updated(before[k], after[k], rules, names[k], false))
    && (forall i :: k < i < |before| ==> after[i] == before[i])
  }

  /** zlog_category_table_update_rules; rooms says when memory runs out in each category. */
  method UpdateTable(cs: seq<Category>, rules: seq<Rule>, rooms: seq<nat>) returns (ok: bool, ghost k: nat)
    requires Named(rules)
    requires Distinct(cs) && |rooms| == |cs|
    modifies set c | c in cs
    ensures UpdatedUpTo(old(States(cs)), States(cs), rules, Names(cs), k)
    ensures ok <==> k == |cs|
    ensures ok <==> forall i :: 0 <= i < |cs| ==> rooms[i] > |Fitted(rules, cs[i].name)|
  {
    var i := 0;
    while i < |cs|
      invariant 0 <= i <= |cs|
      invariant forall j :: 0 <= j < i ==> Updated(old(cs[j].Now()), cs[j].Now(), rules, cs[j].name, true)
      invariant forall j :: i <= j < |cs| ==> cs[j].Now() == old(cs[j].Now())
      invariant forall j :: 0 <= j < i ==> rooms[j] > |Fitted(rules, cs[j].name)|
    {
      var done := cs[i].Update(rules, rooms[i]);
      if !done {
        return false, i;
      }
      i := i + 1;
    }
    return true, |cs|;
  }

  /** zlog_category_table_commit_rules */
  method CommitTable(cs: seq<Category>)
    requires Distinct(cs)
    modifies set c | c in cs
    ensures States(cs) == CommittedAll(old(States(cs)))
  {
    var i := 0;
    while i < |cs|
      invariant 0 <= i <= |cs|
      invariant forall j :: 0 <= j < i ==> cs[j].Now() == Committed(old(cs[j].Now()))
      invariant forall j :: i <= j < |cs| ==> cs[j].Now() == old(cs[j].Now())
    {
      cs[i].Commit();
      i := i + 1;
    }
  }

  /** zlog_category_table_rollback_rules */
  method RollbackTable(cs: seq<Category>)
    requires Distinct(cs)
    modifies set c | c in cs
    ensures States(cs) == RolledBackAll(old(States(cs)))
  {
    var i := 0;
    while i < |cs|
      invariant 0 <= i <= |cs|
      invariant forall j :: 0 <= j < i ==> cs[j].Now() == RolledBack(old(cs[j].Now()))
      invariant forall j :: i <= j < |cs| ==> cs[j].Now() == old(cs[j].Now())
    {
      cs[i].Rollback();
      i := i + 1;
    }
  }

  function CommittedAll(t: seq<State>): seq<State> {
    seq(|t|, i requires 0 <= i < |t| => Committed(t[i]))
  }

  function RolledBackAll(t: seq<State>): seq<State> {
    seq(|t|, i requires 0 <= i < |t| => RolledBack(t[i]))
  }

  function MadeAll(rules: seq<Rule>, names: seq<string>): seq<State>
    requires Named(rules)
  {
    seq(|names|, i requires 0 <= i < |names| => Made(rules, names[i]))
  }

  /** A table-wide update, stopped at any category or not at all, is undone by a table-wide rollback. */
  lemma TableRollbackUndoes(before: seq<State>, after: seq<State>, rules: seq<Rule>, names: seq<string>, k: nat)
    requires Named(rules)
    requires forall i :: 0 <= i < |before| ==> Settled(before[i])
    requires UpdatedUpTo(before, after, rules, names, k)
    ensures RolledBackAll(after) == before
  {
    forall i | 0 <= i < |before| ensures RolledBack(after[i]) == before[i] {
      if i <= k {
        RollbackUndoes(before[i], rules, names[i]);
        assert Updated(before[i], after[i], rules, names[i], i < k);
      }
    }
  }

  /** A whole update committed leaves the table as one newly made from the new rules. */
  lemma TableCommitMakes(before: seq<State>, after: seq<State>, rules: seq<Rule>, names: seq<string>, k: nat)
    requires Named(rules)
    requires forall i :: 0 <= i < |before| ==> Settled(before[i])
    requires UpdatedUpTo(before, after, rules, names, k) && k >= |before|
    ensures CommittedAll(after) == MadeAll(rules, names)
  {
  }

  // The table as a map, whatever order it is walked in.

  const MAXLEN_PATH := 1024

  class Table {
    var categories: map<string, Category>

    constructor ()
      ensures categories == map[]
    {
      categories := map[];
    }

    /** zlog_category_table_fetch_category: the category of that name, made from the rules if there is none yet. */
    method Fetch(name: string, rules: seq<Rule>, room: nat) returns (c: Category?)
      requires Named(rules)
      modifies this
      ensures name in old(categories) ==> c == old(categories)[name] && categories == old(categories)
      ensures name !in old(categories) ==>
        if CanMake(rules, name, room) then
          c != null && fresh(c) && c.name == name && c.Now() == Made(rules, name)
          && categories == old(categories)[name := c]
        else c == null && categories == old(categories)
    {
      if name in categories {
        return categories[name];
      }
      if |name| > MAXLEN_PATH {
        return null;
      }
      c := new Category(name, rules, room);
      if c.fitRules.None? || room == |c.fitRules.value| + 1 {
        return null;
      }
      categories := categories[name := c];
    }
  }

  /** Is there room for the name, the rules and the table's entry? */
  predicate CanMake(rules: seq<Rule>, name: string, room: nat)
    requires Named(rules)
  {
    |name| <= MAXLEN_PATH && room > |Fitted(rules, name)| + 1
  }

  /** Some categories updated, at most one failed, the rest as they were. */
  ghost predicate TableUpdated(t: map<string, State>, u: map<string, State>, rules: seq<Rule>,
                               done: set<string>, failed: Option<string>)
    requires Named(rules)
  {
    && u.Keys == t.Keys
    && forall n :: n in t ==>
         if n in done then Updated(t[n], u[n], rules, n, true)
         else if failed == Some(n) then Updated(t[n], u[n], rules, n, false)
         else u[n] == t[n]
  }

  ghost predicate IsTable(t: map<string, State>, names: seq<string>, states: seq<State>) {
    && |names| == |states| && Distinct(names)
    && (forall i :: 0 <= i < |names| ==> names[i] in t && t[names[i]] == states[i])
    && forall n :: n in t ==> n in names
  }

  ghost function FirstNames(names: seq<string>, k: nat): set<string> {
    set i | 0 <= i < |names| && i < k :: names[i]
  }

  lemma FirstNamesAre(names: seq<string>, k: nat, i: nat)
    requires Distinct(names) && i < |names|
    ensures names[i] in FirstNames(names, k) <==> i < k
  {
  }

  /** An update in some walking order is an update of the map. */
  lemma WalkUpdatesTable(t: map<string, State>, u: map<string, State>, names: seq<string>,
                         before: seq<State>, after: seq<State>, rules: seq<Rule>, k: nat)
    requires Named(rules) && IsTable(t, names, before) && IsTable(u, names, after)
    requires UpdatedUpTo(before, after, rules, names, k)
    ensures TableUpdated(t, u, rules, FirstNames(names, k), if k < |names| then Some(names[k]) else None)
    ensures k >= |names| ==> FirstNames(names, k) == t.Keys
  {
    var done, failed := FirstNames(names, k), if k < |names| then Some(names[k]) else None;
    forall n | n in t
      ensures n in u && (k >= |names| ==> n in done)
      ensures if n in done then Updated(t[n], u[n], rules, n, true)
              else if failed == Some(n) then Updated(t[n], u[n], rules, n, false)
              else u[n] == t[n]
    {
      var i :| 0 <= i < |names| && names[i] == n;
      FirstNamesAre(names, k, i);
      assert i != k && k < |names| ==> names[k] != n;
      assert t[n] == before[i] && u[n] == after[i];
    }
  }

  // Runs: reloads, each committed when its update went through and it is wanted, rolled back otherwise, and
  // categories fetched between them.

  datatype Event =
    | Reload(rules: seq<Rule>, updated: map<string, State>, done: set<string>, failed: Option<string>, commit: bool)
    | Fetch(name: string, room: nat)

  ghost predicate Possible(t: map<string, State>, e: Event) {
    e.Reload? ==>
      && Named(e.rules)
      && TableUpdated(t, e.updated, e.rules, e.done, e.failed)
      && (e.commit ==> e.done == t.Keys)
  }

  function Do(rules: seq<Rule>, t: map<string, State>, e: Event): map<string, State>
    requires Named(rules)
  {
    match e
    case Reload(_, updated, _, _, commit) =>
      map n | n in updated :: if commit then Committed(updated[n]) else RolledBack(updated[n])
    case Fetch(name, room) =>
      if name !in t && CanMake(rules, name, room) then t[name := Made(rules, name)] else t
  }

  /** The rules in force after an event. */
  function RulesAfter(rules: seq<Rule>, e: Event): seq<Rule> {
    if e.Reload? && e.commit then e.rules else rules
  }

  ghost predicate Run(rules: seq<Rule>, t: map<string, State>, es: seq<Event>)
    decreases |es|
  {
    && Named(rules)
    && (es == [] || (Possible(t, es[0]) && Run(RulesAfter(rules, es[0]), Do(rules, t, es[0]), es[1..])))
  }

  ghost function AfterRun(rules: seq<Rule>, t: map<string, State>, es: seq<Event>): map<string, State>
    requires Run(rules, t, es)
    decreases |es|
  {
    if es == [] then t else AfterRun(RulesAfter(rules, es[0]), Do(rules, t, es[0]), es[1..])
  }

  /** The rules committed last. */
  function InForce(rules: seq<Rule>, es: seq<Event>): seq<Rule>
    decreases |es|
  {
    if es == [] then rules else InForce(RulesAfter(rules, es[0]), es[1..])
  }

  function MadeTable(rules: seq<Rule>, names: set<string>): map<string, State>
    requires Named(rules)
  {
    map n | n in names :: Made(rules, n)
  }

  /** A category after a reload that was committed, or rolled back. */
  lemma ReloadKeepsOne(rules: seq<Rule>, new_: seq<Rule>, name: string, u: State, updated: bool, failed: bool)
    requires Named(rules) && Named(new_)
    requires if updated then Updated(Made(rules, name), u, new_, name, true)
             else if failed then Updated(Made(rules, name), u, new_, name, false)
             else u == Made(rules, name)
    ensures RolledBack(u) == Made(rules, name)
    ensures updated ==> Committed(u) == Made(new_, name)
  {
  }

  ghost function Finished(e: Event, n: string): State
    requires e.Reload? && n in e.updated
  {
    if e.commit then Committed(e.updated[n]) else RolledBack(e.updated[n])
  }

  lemma ReloadKeepsName(rules: seq<Rule>, t: map<string, State>, e: Event, n: string)
    requires Named(rules) && e.Reload? && Possible(t, e) && n in t && t[n] == Made(rules, n)
    ensures n in e.updated && Finished(e, n) == Made(RulesAfter(rules, e), n)
  {
    ReloadKeepsOne(rules, e.rules, n, e.updated[n], n in e.done, e.failed == Some(n));
  }

  lemma ReloadKeepsTable(rules: seq<Rule>, names: set<string>, e: Event)
    requires Named(rules) && e.Reload? && Possible(MadeTable(rules, names), e)
    ensures Do(rules, MadeTable(rules, names), e) == MadeTable(RulesAfter(rules, e), names)
  {
    var t, next := MadeTable(rules, names), Do(rules, MadeTable(rules, names), e);
    assert next.Keys == names;
    forall n | n in names ensures next[n] == Made(RulesAfter(rules, e), n) {
      ReloadKeepsName(rules, t, e, n);
    }
  }

  lemma FetchKeepsTable(rules: seq<Rule>, names: set<string>, e: Event)
    requires Named(rules) && e.Fetch?
    ensures var t := Do(rules, MadeTable(rules, names), e);
      t == MadeTable(rules, t.Keys) && names <= t.Keys <= names + {e.name}
  {
  }

  /** After any run every category there is is as if newly made from the rules committed last, and none is lost. */
  lemma {:induction false} RunsKeepTheTable(rules: seq<Rule>, names: set<string>, es: seq<Event>)
    requires Named(rules) && Run(rules, MadeTable(rules, names), es)
    ensures Named(InForce(rules, es))
    ensures var t := AfterRun(rules, MadeTable(rules, names), es);
      t == MadeTable(InForce(rules, es), t.Keys) && names <= t.Keys
    decreases |es|
  {
    if es != [] {
      var next := Do(rules, MadeTable(rules, names), es[0]);
      if es[0].Reload? {
        ReloadKeepsTable(rules, names, es[0]);
        RunsKeepTheTable(RulesAfter(rules, es[0]), names, es[1..]);
      } else {
        FetchKeepsTable(rules, names, es[0]);
        RunsKeepTheTable(rules, next.Keys, es[1..]);
      }
    }
  }

  /** Every rule list that is loaded was made by zlog_rule_new. */
  ghost predicate AllLoadsWellMade(es: seq<Event>) {
    forall k :: 0 <= k < |es| && es[k].Reload? ==> AllWellMade(es[k].rules)
  }

  lemma {:induction false} InForceIsWellMade(rules: seq<Rule>, es: seq<Event>)
    requires AllWellMade(rules) && AllLoadsWellMade(es)
    ensures AllWellMade(InForce(rules, es))
    decreases |es|
  {
    if es != [] {
      assert AllLoadsWellMade(es[1..]);
      InForceIsWellMade(RulesAfter(rules, es[0]), es[1..]);
    }
  }

  /** So after any run the bitmap of each category still tells what its rules would put out. */
  lemma RunsKeepTheShortCut(rules: seq<Rule>, names: set<string>, es: seq<Event>, name: string, lv: nat)
    requires AllWellMade(rules) && AllLoadsWellMade(es) && Run(rules, MadeTable(rules, names), es) && lv < 256
    requires name in AfterRun(rules, MadeTable(rules, names), es)
    ensures var c := AfterRun(rules, MadeTable(rules, names), es)[name];
      c.fit.Some? && (!Bit(c.bitmap, lv) <==> !SomeOutputs(c.fit.value, lv))
  {
    RunsKeepTheTable(rules, names, es);
    InForceIsWellMade(rules, es);
    NeedlessLevels(InForce(rules, es), name, lv);
  }
}
