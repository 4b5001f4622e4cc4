// Rule tables as sequences: what appending missing rules and deleting first
// matches do to rules of one's own and to everybody else's.
module RuleTable {
  datatype Chain = Forward | Postrouting

  datatype Rule = Rule(chain: Chain, matches: seq<string>, comment: string, target: string)

  // `-D`: the first matching rule.
  function RemoveFirst(rules: seq<Rule>, r: Rule): seq<Rule> {
    if rules == [] then []
    else if rules[0] == r then rules[1..]
    else [rules[0]] + RemoveFirst(rules[1..], r)
  }

  lemma {:induction false} RemoveFirstCount(rules: seq<Rule>, r: Rule)
    ensures multiset(RemoveFirst(rules, r)) == multiset(rules) - multiset{r}
  {
    if rules != [] {
      assert rules == [rules[0]] + rules[1..];
      if rules[0] != r { RemoveFirstCount(rules[1..], r); }
    }
  }

  function RemoveEach(rules: seq<Rule>, list: seq<Rule>): seq<Rule> {
    if list == [] then rules else RemoveFirst(RemoveEach(rules, list[..|list| - 1]), list[|list| - 1])
  }

  // The rules of a list that a table lacks.
  function Absent(rules: seq<Rule>, list: seq<Rule>): (r: seq<Rule>)
    ensures forall x :: x in r <==> x in list && x !in rules
  {
    if list == [] then []
    else
      var init, last := list[..|list| - 1], list[|list| - 1];
      assert forall x :: x in list <==> x in init || x == last;
      Absent(rules, init) + (if last in rules then [] else [last])
  }

  // Everybody else's rules, in order.
  function Foreign(rules: seq<Rule>, ours: seq<Rule>): seq<Rule> {
    if rules == [] then []
    else (if rules[0] in ours then [] else [rules[0]]) + Foreign(rules[1..], ours)
  }

  ghost predicate Unique(list: seq<Rule>) {
    forall i, j | 0 <= i < j < |list| :: list[i] != list[j]
  }

  // Exactly the rules of others, each as often as in the table, ...
  lemma {:induction false} ForeignCount(rules: seq<Rule>, ours: seq<Rule>, x: Rule)
    ensures multiset(Foreign(rules, ours))[x] == if x in ours then 0 else multiset(rules)[x]
  {
    if rules != [] {
      ForeignCount(rules[1..], ours, x);
      assert rules == [rules[0]] + rules[1..];
    }
  }

  // ... in the order of the table.
  lemma {:induction false} ForeignInOrder(a: seq<Rule>, b: seq<Rule>, ours: seq<Rule>)
    ensures Foreign(a + b, ours) == Foreign(a, ours) + Foreign(b, ours)
  {
    if a == [] {
      assert a + b == b;
    } else {
      var head := if a[0] in ours then [] else [a[0]];
      assert (a + b)[1..] == a[1..] + b;
      assert Foreign(a + b, ours) == head + Foreign(a[1..] + b, ours) &&
             Foreign(a, ours) == head + Foreign(a[1..], ours);
      hide Foreign;
      ForeignInOrder(a[1..], b, ours);
    }
  }

  lemma {:induction false} ForeignOfMore(rules: seq<Rule>, added: seq<Rule>, ours: seq<Rule>)
    requires forall x | x in added :: x in ours
    ensures Foreign(rules + added, ours) == Foreign(rules, ours)
  {
    if rules == [] {
      assert rules + added == added;
      if added != [] {
        assert added[0] in added && forall x | x in added[1..] :: x in added;
        ForeignOfMore([], added[1..], ours);
        assert [] + added[1..] == added[1..];
      }
    } else {
      assert (rules + added)[1..] == rules[1..] + added;
      ForeignOfMore(rules[1..], added, ours);
    }
  }

  lemma {:induction false} ForeignOfFewer(rules: seq<Rule>, r: Rule, ours: seq<Rule>)
    requires r in ours
    ensures Foreign(RemoveFirst(rules, r), ours) == Foreign(rules, ours)
  {
    if rules != [] && rules[0] != r {
      ForeignOfFewer(rules[1..], r, ours);
      assert RemoveFirst(rules, r)[1..] == RemoveFirst(rules[1..], r);
    }
  }

  lemma {:induction false} RemoveEachForeign(rules: seq<Rule>, list: seq<Rule>, ours: seq<Rule>)
    requires forall x | x in list :: x in ours
    ensures Foreign(RemoveEach(rules, list), ours) == Foreign(rules, ours)
  {
    hide Foreign, RemoveFirst;
    if list != [] {
      var init, last := list[..|list| - 1], list[|list| - 1];
      RemoveEachForeign(rules, init, ours);
      ForeignOfFewer(RemoveEach(rules, init), last, ours);
    }
  }

  lemma {:induction false} RemoveEachCount(rules: seq<Rule>, list: seq<Rule>)
    ensures multiset(RemoveEach(rules, list)) == multiset(rules) - multiset(list)
  {
    hide RemoveFirst;
    if list == [] {
      assert multiset(list) == multiset{};
    } else {
      var init, last := list[..|list| - 1], list[|list| - 1];
      RemoveEachCount(rules, init);
      RemoveFirstCount(RemoveEach(rules, init), last);
      assert list == init + [last];
    }
  }

  // Only a rule that the table ends with and does not hold elsewhere can be
  // taken off without a trace.
  lemma {:induction false} RemoveFirstOfMore(rules: seq<Rule>, r: Rule, more: seq<Rule>)
    requires r !in rules
    ensures RemoveFirst(rules + [r] + more, r) == rules + more
  {
    var all := rules + [r] + more;
    if rules == [] {
      assert all[1..] == more && rules + more == more;
    } else {
      assert all[1..] == rules[1..] + [r] + more;
      RemoveFirstOfMore(rules[1..], r, more);
      assert rules + more == [rules[0]] + (rules[1..] + more);
    }
  }

  lemma {:induction false} RemoveEachOfNew(rules: seq<Rule>, list: seq<Rule>, k: nat)
    requires Unique(list) && k <= |list| && forall x | x in list :: x !in rules
    ensures RemoveEach(rules + list, list[..k]) == rules + list[k..]
  {
    if k == 0 {
      assert list[..0] == [] && list[0..] == list;
    } else {
      RemoveEachOfNew(rules, list, k - 1);
      assert list[..k][..k - 1] == list[..k - 1] && list[k - 1] in list;
      assert rules + list[k - 1..] == rules + [list[k - 1]] + list[k..];
      RemoveFirstOfMore(rules, list[k - 1], list[k..]);
    }
  }

  lemma {:induction false} AbsentAll(rules: seq<Rule>, list: seq<Rule>)
    ensures Absent(rules, list) == list <==> forall x | x in list :: x !in rules
  {
    if list != [] {
      var init, last := list[..|list| - 1], list[|list| - 1];
      AbsentAll(rules, init);
      AbsentSize(rules, init);
      assert list == init + [last];
      if last in rules { assert last in list; }
    }
  }

  lemma {:induction false} AbsentSize(rules: seq<Rule>, list: seq<Rule>)
    ensures |Absent(rules, list)| <= |list|
  {
    if list != [] { AbsentSize(rules, list[..|list| - 1]); }
  }

  lemma AbsentOneMore(rules: seq<Rule>, list: seq<Rule>, i: nat)
    requires i < |list|
    ensures Absent(rules, list[..i + 1]) == Absent(rules, list[..i]) + (if list[i] in rules then [] else [list[i]])
  {
    assert list[..i + 1][..i] == list[..i];
  }

  lemma NotYet(list: seq<Rule>, i: nat)
    requires Unique(list) && i < |list|
    ensures list[i] !in list[..i]
  {
  }

  // Deleting what was ensured restores the table exactly when none of it was
  // there before: otherwise a rule that was there is gone.
  lemma RollbackExact(rules: seq<Rule>, list: seq<Rule>)
    requires Unique(list)
    ensures RemoveEach(rules + Absent(rules, list), list) == rules <==> forall x | x in list :: x !in rules
  {
    hide RemoveEach, Absent, Unique;
    if forall x | x in list :: x !in rules {
      AbsentAll(rules, list);
      RemoveEachOfNew(rules, list, |list|);
      assert list[..|list|] == list && rules + list[|list|..] == rules;
    } else {
      var x :| x in list && x in rules;
      OneFewer(rules, list, x);
    }
  }

  lemma OneFewer(rules: seq<Rule>, list: seq<Rule>, x: Rule)
    requires Unique(list) && x in list && x in rules
    ensures multiset(RemoveEach(rules + Absent(rules, list), list))[x] == multiset(rules)[x] - 1
  {
    hide RemoveEach, Absent, Unique;
    var added := Absent(rules, list);
    assert x !in added && x !in multiset(added);
    UniqueCount(list);
    RemoveEachCount(rules + added, list);
    assert multiset(rules + added) == multiset(rules) + multiset(added);
    assert x in multiset(rules);
  }

  lemma {:induction false} UniqueCount(list: seq<Rule>)
    requires Unique(list)
    ensures forall x | x in list :: multiset(list)[x] == 1
  {
    if list != [] {
      var init, last := list[..|list| - 1], list[|list| - 1];
      UniqueCount(init);
      assert list == init + [last];
    }
  }

  // No rule is more frequent after the deletions than before, whatever part of
  // the list was added.
  lemma NeverMore(rules: seq<Rule>, added: seq<Rule>, list: seq<Rule>)
    requires multiset(added) <= multiset(list)
    ensures multiset(RemoveEach(rules + added, list)) <= multiset(rules)
    ensures Foreign(RemoveEach(rules + added, list), list) == Foreign(rules, list)
  {
    hide RemoveEach, Foreign;
    forall x | x in added ensures x in list { assert x in multiset(added); }
    RemoveEachForeign(rules + added, list, list);
    RemoveEachCount(rules + added, list);
    assert multiset(rules + added) == multiset(rules) + multiset(added);
    ForeignOfMore(rules, added, list);
  }
}
