/**
 Scored findings under their derived order, and ordered sets of them held the way
 a baseline document lists them: as a strictly sorted sequence.
 */
module Findings {

  datatype ScoredStatus = Failure | Warning

  datatype Finding = Finding(scenario: string, check: string, name: string, status: ScoredStatus)

  predicate TextLess(a: string, b: string) {
    b != [] && (a == [] || a[0] < b[0] || (a[0] == b[0] && TextLess(a[1..], b[1..])))
  }

  /** The order derived from the declaration: scenario, check, name, status. */
  predicate Less(a: Finding, b: Finding) {
    if a.scenario != b.scenario then TextLess(a.scenario, b.scenario)
    else if a.check != b.check then TextLess(a.check, b.check)
    else if a.name != b.name then TextLess(a.name, b.name)
    else a.status == Failure && b.status == Warning
  }

  lemma {:induction false} TextTrichotomy(a: string, b: string)
    ensures a == b || TextLess(a, b) || TextLess(b, a)
    ensures !(TextLess(a, b) && TextLess(b, a)) && !TextLess(a, a)
    decreases |a|
  {
    if a != [] {
      TextTrichotomy(a[1..], a[1..]);
      if b != [] {
        TextTrichotomy(a[1..], b[1..]);
        assert a == [a[0]] + a[1..] && b == [b[0]] + b[1..];
      }
    }
  }

  lemma {:induction false} TextTransitive(a: string, b: string, c: string)
    requires TextLess(a, b) && TextLess(b, c)
    ensures TextLess(a, c)
    decreases |a|
  {
    if a != [] && a[0] == b[0] == c[0] { TextTransitive(a[1..], b[1..], c[1..]); }
  }

  lemma Trichotomy(a: Finding, b: Finding)
    ensures a == b || Less(a, b) || Less(b, a)
    ensures !(Less(a, b) && Less(b, a)) && !Less(a, a)
  {
    TextTrichotomy(a.scenario, b.scenario);
    TextTrichotomy(a.check, b.check);
    TextTrichotomy(a.name, b.name);
  }

  lemma Transitive(a: Finding, b: Finding, c: Finding)
    requires Less(a, b) && Less(b, c)
    ensures Less(a, c)
  {
    hide TextLess;
    TextTrichotomy(a.scenario, b.scenario);
    TextTrichotomy(a.check, b.check);
    TextTrichotomy(a.name, b.name);
    if a.scenario != b.scenario && b.scenario != c.scenario {
      TextTransitive(a.scenario, b.scenario, c.scenario);
    } else if a.scenario == b.scenario == c.scenario {
      if a.check != b.check && b.check != c.check {
        TextTransitive(a.check, b.check, c.check);
      } else if a.check == b.check == c.check && a.name != b.name && b.name != c.name {
        TextTransitive(a.name, b.name, c.name);
      }
    }
  }

  /** No adjacent pair is out of order: what reading a baseline insists on. */
  predicate StrictlySorted(s: seq<Finding>) {
    forall i :: 0 <= i < |s| - 1 ==> Less(s[i], s[i + 1])
  }

  lemma {:induction false} SortedApart(s: seq<Finding>, i: nat, j: nat)
    requires StrictlySorted(s) && i < j < |s|
    ensures Less(s[i], s[j])
    decreases j
  {
    if i + 1 < j {
      SortedApart(s, i, j - 1);
      Transitive(s[i], s[j - 1], s[j]);
    }
  }

  /** Insertion into an ordered set. */
  function Insert(s: seq<Finding>, f: Finding): (r: seq<Finding>)
    ensures forall g :: g in r <==> g in s || g == f
    ensures StrictlySorted(s) ==> StrictlySorted(r)
    ensures r != [] && (r[0] == f || (s != [] && r[0] == s[0]))
  {
    if s == [] then [f]
    else if f == s[0] then s
    else if Less(f, s[0]) then [f] + s
    else
      var rest := Insert(s[1..], f);
      assert s == [s[0]] + s[1..];
      Trichotomy(f, s[0]);
      assert StrictlySorted(s) ==> StrictlySorted(s[1..]);
      assert StrictlySorted(s) ==> Less(s[0], rest[0]);
      [s[0]] + rest
  }

  /** The findings of `s` that `t` does not hold, in order. */
  function Difference(s: seq<Finding>, t: seq<Finding>): (r: seq<Finding>)
    ensures forall f :: f in r <==> f in s && f !in t
  {
    if s == [] then []
    else
      assert s == [s[0]] + s[1..];
      (if s[0] in t then [] else [s[0]]) + Difference(s[1..], t)
  }

  lemma {:induction false} DifferenceSorted(s: seq<Finding>, t: seq<Finding>)
    requires StrictlySorted(s)
    ensures StrictlySorted(Difference(s, t))
  {
    if s != [] {
      DifferenceSorted(s[1..], t);
      var rest := Difference(s[1..], t);
      if rest != [] {
        assert rest[0] in s[1..];
        var k :| 0 <= k < |s[1..]| && s[1..][k] == rest[0];
        SortedApart(s, 0, k + 1);
      }
    }
  }

  /** A set has one strictly sorted listing. */
  lemma {:induction false} SortedListingIsUnique(s: seq<Finding>, t: seq<Finding>)
    requires StrictlySorted(s) && StrictlySorted(t)
    requires forall f :: f in s <==> f in t
    ensures s == t
    decreases |s|
  {
    assert t == [] || t[0] in t;
    if s != [] {
      assert s[0] in t && t[0] in s;
      var i :| 0 <= i < |s| && s[i] == t[0];
      var j :| 0 <= j < |t| && t[j] == s[0];
      if i > 0 { SortedApart(s, 0, i); }
      if j > 0 { SortedApart(t, 0, j); }
      Trichotomy(s[0], t[0]);
      Tail(s);
      Tail(t);
      SortedListingIsUnique(s[1..], t[1..]);
      assert s == [s[0]] + s[1..] && t == [t[0]] + t[1..];
    }
  }

  lemma Tail(s: seq<Finding>)
    requires StrictlySorted(s) && s != []
    ensures StrictlySorted(s[1..])
    ensures forall f :: f in s[1..] <==> f in s && f != s[0]
  {
    forall k | 1 <= k < |s| ensures s[k] != s[0] {
      SortedApart(s, 0, k);
      Trichotomy(s[0], s[k]);
    }
  }
}
