/**
 * The action lists of widgets, with QWidget::insertAction and
 * QWidget::removeAction reduced to their documented contracts, and the
 * placeholder splice that ActionItem performs on each associated widget.
 */
module ActionLists {
  import opened Variants

  type WidgetId = nat

  /** A widget holds at most one copy of each action. */
  ghost predicate NoDuplicates(s: seq<ActionId>) {
    forall i, j :: 0 <= i < j < |s| ==> s[i] != s[j]
  }

  /** The position of the first occurrence of `a`. */
  function IndexOf(s: seq<ActionId>, a: ActionId): (i: nat)
    requires a in s
    ensures i < |s| && s[i] == a && a !in s[..i]
  {
    if s[0] == a then 0
    else
      var k := IndexOf(s[1..], a);
      assert s[..k + 1] == [s[0]] + s[1..][..k];
      k + 1
  }

  /** removeAction: every occurrence of `a` is dropped, the rest keeps its order. */
  function RemoveAll(s: seq<ActionId>, a: ActionId): (r: seq<ActionId>)
    ensures forall x :: x in r <==> x in s && x != a
    ensures a !in s ==> r == s
    ensures NoDuplicates(s) ==> NoDuplicates(r)
  {
    if s == [] then []
    else if s[0] == a then RemoveAll(s[1..], a)
    else
      var rest := RemoveAll(s[1..], a);
      assert s == [s[0]] + s[1..];
      assert NoDuplicates(s) ==> NoDuplicates([s[0]] + rest) by {
        if NoDuplicates(s) {
          NoDuplicatesTail(s);
          NoDuplicatesCons(s[0], rest);
        }
      }
      [s[0]] + rest
  }

  lemma {:induction false} RemoveAllConcat(s: seq<ActionId>, t: seq<ActionId>, a: ActionId)
    ensures RemoveAll(s + t, a) == RemoveAll(s, a) + RemoveAll(t, a)
  {
    if s == [] {
      assert s + t == t;
    } else {
      assert (s + t)[1..] == s[1..] + t;
      RemoveAllConcat(s[1..], t, a);
    }
  }

  lemma NoDuplicatesTail(s: seq<ActionId>)
    requires |s| > 0 && NoDuplicates(s)
    ensures s[0] !in s[1..] && NoDuplicates(s[1..])
  {
    assert forall k :: 0 <= k < |s[1..]| ==> s[1..][k] == s[k + 1];
  }

  lemma NoDuplicatesCons(x: ActionId, t: seq<ActionId>)
    requires x !in t && NoDuplicates(t)
    ensures NoDuplicates([x] + t)
  {
    var r := [x] + t;
    forall p, q | 0 <= p < q < |r| ensures r[p] != r[q] {
      assert r[q] == t[q - 1];
      if p > 0 { assert r[p] == t[p - 1]; }
    }
  }

  /** Putting a new element at position `i` keeps the elements and their uniqueness. */
  lemma InsertAtElements(t: seq<ActionId>, i: nat, x: ActionId)
    requires i < |t| && x !in t
    ensures var r := t[..i] + [x] + t[i..];
            (forall y :: y in r <==> y in t || y == x) && (NoDuplicates(t) ==> NoDuplicates(r))
  {
    var r := t[..i] + [x] + t[i..];
    assert t == t[..i] + t[i..];
    if NoDuplicates(t) {
      var tail := [x] + t[i..];
      assert NoDuplicates(t[i..]) by {
        forall p, q | 0 <= p < q < |t[i..]| ensures t[i..][p] != t[i..][q] {
          assert t[i..][p] == t[i + p] && t[i..][q] == t[i + q];
        }
      }
      NoDuplicatesCons(x, t[i..]);
      forall p, q | 0 <= p < q < |r| ensures r[p] != r[q] {
        if q < i {
          assert r[p] == t[p] && r[q] == t[q];
        } else if p < i {
          assert r[p] == t[p] && r[p] in t[..i];
          assert r[q] == tail[q - i];
          if q > i {
            assert r[q] == t[q - 1];
          }
        } else {
          assert r[p] == tail[p - i] && r[q] == tail[q - i];
        }
      }
    }
  }

  /** After the insertion, the new element sits at `i` and the old `t[i]` right after it. */
  lemma InsertAtPositions(t: seq<ActionId>, i: nat, x: ActionId)
    requires i < |t| && x !in t && t[i] !in t[..i]
    ensures var r := t[..i] + [x] + t[i..];
            x in r && t[i] in r && IndexOf(r, x) == i && IndexOf(r, t[i]) == i + 1
  {
    var r := t[..i] + [x] + t[i..];
    assert r[i] == x && r[i + 1] == t[i];
    assert r[..i] == t[..i];
    assert r[..i + 1] == t[..i] + [x];
  }

  /**
   * insertAction(before, a): a null action is ignored; otherwise an existing
   * copy of `a` is taken out first, then `a` goes immediately before `before`,
   * or at the end when `before` is not in the list.
   */
  function InsertAction(s: seq<ActionId>, before: ActionId, a: Option<ActionId>): (r: seq<ActionId>)
    ensures a.None? ==> r == s
    ensures forall x :: x in r <==> x in s || a == Some(x)
    ensures NoDuplicates(s) ==> NoDuplicates(r)
    ensures a.Some? && before in s && before != a.value ==>
              before in r && a.value in r && IndexOf(r, a.value) + 1 == IndexOf(r, before)
    ensures a.Some? && (before !in s || before == a.value) ==> r == RemoveAll(s, a.value) + [a.value]
  {
    match a
    case None => s
    case Some(x) =>
      var t := RemoveAll(s, x);
      if before in t then
        var i := IndexOf(t, before);
        InsertAtElements(t, i, x);
        InsertAtPositions(t, i, x);
        t[..i] + [x] + t[i..]
      else
        assert NoDuplicates(t) ==> NoDuplicates(t + [x]);
        t + [x]
  }

  /**
   * What ActionItem does to one associated widget: insert the resolved action
   * before the placeholder, then remove the placeholder.
   */
  function Splice(s: seq<ActionId>, placeholder: ActionId, a: Option<ActionId>): (r: seq<ActionId>)
    ensures placeholder !in r
    ensures forall x :: x in r <==> (x in s || a == Some(x)) && x != placeholder
    ensures NoDuplicates(s) ==> NoDuplicates(r)
  {
    RemoveAll(InsertAction(s, placeholder, a), placeholder)
  }

  /** The optional action as a list of zero or one elements. */
  function AsList(a: Option<ActionId>): seq<ActionId> {
    if a.Some? then [a.value] else []
  }

  /**
   * The resolved action takes exactly the placeholder's position, any other
   * copy of it that the widget held is dropped, and every other action keeps
   * its place; a null action, or the placeholder itself, just closes the gap.
   */
  lemma SpliceInPlace(s: seq<ActionId>, placeholder: ActionId, a: Option<ActionId>)
    requires NoDuplicates(s) && placeholder in s
    ensures var i := IndexOf(s, placeholder);
            a.None? || a == Some(placeholder) ==> Splice(s, placeholder, a) == s[..i] + s[i + 1..]
    ensures var i := IndexOf(s, placeholder);
            a.Some? && a.value != placeholder ==>
              Splice(s, placeholder, a) == RemoveAll(s[..i], a.value) + [a.value] + RemoveAll(s[i + 1..], a.value)
    ensures var i := IndexOf(s, placeholder);
            a.Some? && a.value !in s ==> Splice(s, placeholder, a) == s[..i] + [a.value] + s[i + 1..]
  {
    var i := IndexOf(s, placeholder);
    match a
    case None =>
      SpliceNullInPlace(s, placeholder);
    case Some(x) =>
      if x == placeholder {
        SpliceSelfInPlace(s, placeholder);
      } else {
        SpliceMovedInPlace(s, placeholder, x);
        if x !in s {
          assert x !in s[..i] && x !in s[i + 1..];
        }
      }
  }

  lemma SpliceNullInPlace(s: seq<ActionId>, placeholder: ActionId)
    requires NoDuplicates(s) && placeholder in s
    ensures var i := IndexOf(s, placeholder);
            Splice(s, placeholder, None) == RemoveAll(s, placeholder) == s[..i] + s[i + 1..]
  {
    var i := IndexOf(s, placeholder);
    var before, after := s[..i], s[i + 1..];
    assert s == before + ([placeholder] + after);
    UniqueAt(s, i);
    RemoveAllConcat([placeholder], after, placeholder);
    assert RemoveAll([placeholder], placeholder) == [];
    RemoveAllConcat(before, [placeholder] + after, placeholder);
  }

  /** Assigning the placeholder itself: insertAction moves it to the end, removeAction then drops it. */
  lemma SpliceSelfInPlace(s: seq<ActionId>, placeholder: ActionId)
    requires NoDuplicates(s) && placeholder in s
    ensures var i := IndexOf(s, placeholder);
            Splice(s, placeholder, Some(placeholder)) == s[..i] + s[i + 1..]
  {
    var t := RemoveAll(s, placeholder);
    SpliceNullInPlace(s, placeholder);
    RemoveAllConcat(t, [placeholder], placeholder);
    assert RemoveAll([placeholder], placeholder) == [];
    assert t + [] == t;
  }

  /** An action the widget may already hold: its old copy goes, the new one takes the placeholder's slot. */
  lemma SpliceMovedInPlace(s: seq<ActionId>, placeholder: ActionId, x: ActionId)
    requires NoDuplicates(s) && placeholder in s && x != placeholder
    ensures var i := IndexOf(s, placeholder);
            Splice(s, placeholder, Some(x)) == RemoveAll(s[..i], x) + [x] + RemoveAll(s[i + 1..], x)
  {
    var i := IndexOf(s, placeholder);
    var before, after := s[..i], s[i + 1..];
    UniqueAt(s, i);
    assert s == before + ([placeholder] + after);
    var rb, ra := RemoveAll(before, x), RemoveAll(after, x);
    RemoveAllConcat([placeholder], after, x);
    assert RemoveAll([placeholder], x) == [placeholder];
    RemoveAllConcat(before, [placeholder] + after, x);
    var t := RemoveAll(s, x);
    assert t == rb + ([placeholder] + ra);
    IndexOfAfterPrefix(rb, placeholder, ra);
    assert t[..|rb|] == rb && t[|rb|..] == [placeholder] + ra;
    var u := (rb + [x]) + ([placeholder] + ra);
    assert InsertAction(s, placeholder, Some(x)) == u;
    RemoveAllConcat([placeholder], ra, placeholder);
    assert RemoveAll([placeholder], placeholder) == [];
    RemoveAllConcat(rb + [x], [placeholder] + ra, placeholder);
    RemoveAllConcat(rb, [x], placeholder);
    assert RemoveAll([x], placeholder) == [x];
  }

  /** In a list without duplicates, an element does not occur again after its position. */
  lemma UniqueAt(s: seq<ActionId>, i: nat)
    requires NoDuplicates(s) && i < |s|
    ensures s[i] !in s[i + 1..]
  {
  }

  /** The first occurrence of `p` right after a prefix that lacks it is at the prefix's length. */
  lemma {:induction false} IndexOfAfterPrefix(u: seq<ActionId>, p: ActionId, v: seq<ActionId>)
    requires p !in u
    ensures IndexOf(u + ([p] + v), p) == |u|
  {
    if u == [] {
      assert u + ([p] + v) == [p] + v;
    } else {
      assert (u + ([p] + v))[1..] == u[1..] + ([p] + v);
      IndexOfAfterPrefix(u[1..], p, v);
    }
  }

  /** Splice applied to every widget whose list holds the placeholder. */
  function SpliceAll(lists: map<WidgetId, seq<ActionId>>, placeholder: ActionId, a: Option<ActionId>)
    : (r: map<WidgetId, seq<ActionId>>)
    ensures r.Keys == lists.Keys
    ensures forall w :: w in r ==> placeholder !in r[w]
    ensures forall w :: w in lists && placeholder !in lists[w] ==> r[w] == lists[w]
    ensures forall w :: w in lists && placeholder in lists[w] ==> r[w] == Splice(lists[w], placeholder, a)
  {
    map w | w in lists :: if placeholder in lists[w] then Splice(lists[w], placeholder, a) else lists[w]
  }

  /** Splice applied to those widgets of `done` whose list holds the placeholder: the loop's progress. */
  function SplicePartial(lists: map<WidgetId, seq<ActionId>>, placeholder: ActionId, a: Option<ActionId>,
                         done: set<WidgetId>): map<WidgetId, seq<ActionId>>
  {
    map w | w in lists :: if w in done && placeholder in lists[w] then Splice(lists[w], placeholder, a) else lists[w]
  }

  lemma SplicePartialStep(lists: map<WidgetId, seq<ActionId>>, placeholder: ActionId, a: Option<ActionId>,
                          done: set<WidgetId>, w: WidgetId)
    requires w in lists && placeholder in lists[w]
    ensures SplicePartial(lists, placeholder, a, done + {w})
            == SplicePartial(lists, placeholder, a, done)[w := Splice(lists[w], placeholder, a)]
  {
  }

  lemma SplicePartialComplete(lists: map<WidgetId, seq<ActionId>>, placeholder: ActionId, a: Option<ActionId>,
                              done: set<WidgetId>)
    requires forall w :: w in lists && placeholder in lists[w] ==> w in done
    ensures SplicePartial(lists, placeholder, a, done) == SpliceAll(lists, placeholder, a)
  {
  }

  /** The action lists of all widgets (the part of the toolkit ActionItem touches). */
  class Widgets {
    var lists: map<WidgetId, seq<ActionId>>

    ghost predicate Valid()
      reads this
    {
      forall w :: w in lists ==> NoDuplicates(lists[w])
    }

    constructor (lists: map<WidgetId, seq<ActionId>>)
      requires forall w :: w in lists ==> NoDuplicates(lists[w])
      ensures Valid() && this.lists == lists
    {
      this.lists := lists;
    }

    /** associatedWidgets(): the widgets whose list holds `a`. */
    function AssociatedWidgets(a: ActionId): (ws: set<WidgetId>)
      reads this
      ensures forall w :: w in ws <==> w in lists && a in lists[w]
    {
      set w | w in lists && a in lists[w]
    }

    method InsertActionAt(w: WidgetId, before: ActionId, a: Option<ActionId>)
      requires w in lists
      modifies this
      ensures lists == old(lists)[w := InsertAction(old(lists)[w], before, a)]
      ensures old(Valid()) ==> Valid()
    {
      lists := lists[w := InsertAction(lists[w], before, a)];
    }

    method RemoveActionAt(w: WidgetId, a: ActionId)
      requires w in lists
      modifies this
      ensures lists == old(lists)[w := RemoveAll(old(lists)[w], a)]
      ensures old(Valid()) ==> Valid()
    {
      lists := lists[w := RemoveAll(lists[w], a)];
    }
  }
}
