/** The scrollytelling showcase: the list of row indices that have been
    seen, grown by the intersection observer's callback, and the class
    attribute each row is rendered with. */
module Showcase {
  import opened Text

  predicate NoDuplicates(s: seq<nat>) {
    forall i, j :: 0 <= i < j < |s| ==> s[i] != s[j]
  }

  /** `Array.from(new Set(s))`: a `Set` is filled in iteration order and
      ignores values it already holds, so each value keeps its first position. */
  function SetFrom(s: seq<nat>): seq<nat>
    decreases |s|
  {
    if s == [] then []
    else
      var init := SetFrom(s[..|s| - 1]);
      if s[|s| - 1] in init then init else init + [s[|s| - 1]]
  }

  /** The `setVisibleSteps` updater for one intersecting row:
      `prev => Array.from(new Set([...prev, index]))`. */
  function AddVisible(prev: seq<nat>, index: nat): seq<nat> {
    SetFrom(prev + [index])
  }

  lemma {:induction false} SetFromProperties(s: seq<nat>)
    ensures NoDuplicates(SetFrom(s))
    ensures forall x :: x in SetFrom(s) <==> x in s
    decreases |s|
  {
    if s != [] {
      var init := s[..|s| - 1];
      SetFromProperties(init);
      assert s == init + [s[|s| - 1]];
    }
  }

  /** A list without duplicates comes out of the set unchanged. */
  lemma {:induction false} SetFromNoDuplicates(s: seq<nat>)
    requires NoDuplicates(s)
    ensures SetFrom(s) == s
    decreases |s|
  {
    if s != [] {
      var init := s[..|s| - 1];
      SetFromNoDuplicates(init);
      assert s == init + [s[|s| - 1]];
      assert s[|s| - 1] !in init by {
        forall k | 0 <= k < |init|
          ensures init[k] != s[|s| - 1]
        {
          assert init[k] == s[k];
        }
      }
    }
  }

  /** What the update does to a duplicate-free list: the index is appended
      unless it is already there, in which case the list is returned as is. */
  lemma AddVisibleAppends(prev: seq<nat>, index: nat)
    requires NoDuplicates(prev)
    ensures AddVisible(prev, index) == if index in prev then prev else prev + [index]
  {
    SetFromNoDuplicates(prev);
    assert (prev + [index])[..|prev|] == prev;
  }

  /** The index becomes visible, nothing else does, every previously visible
      row stays where it was, no duplicates arise, and adding again changes
      nothing. */
  lemma AddVisibleProperties(prev: seq<nat>, index: nat)
    requires NoDuplicates(prev)
    ensures var next := AddVisible(prev, index);
      && NoDuplicates(next)
      && (forall x :: x in next <==> x in prev || x == index)
      && |prev| <= |next| && next[..|prev|] == prev
      && AddVisible(next, index) == next
  {
    AddVisibleAppends(prev, index);
    var next := AddVisible(prev, index);
    SetFromProperties(prev + [index]);
    AddVisibleAppends(next, index);
  }

  /** One observer entry, as much of it as the callback reads. */
  datatype Entry = Entry(isIntersecting: bool, index: nat)

  /** The observer callback: one queued update per intersecting entry,
      applied in order. */
  function OnEntries(visible: seq<nat>, entries: seq<Entry>): seq<nat>
    decreases |entries|
  {
    if entries == [] then visible
    else
      var e := entries[0];
      OnEntries(if e.isIntersecting then AddVisible(visible, e.index) else visible, entries[1..])
  }

  /** The callback keeps the list duplicate-free; afterwards it holds exactly
      what it held before plus the intersecting indices, with the old ones
      still in front in their old order. */
  lemma {:induction false} OnEntriesProperties(visible: seq<nat>, entries: seq<Entry>)
    requires NoDuplicates(visible)
    ensures var r := OnEntries(visible, entries);
      && NoDuplicates(r)
      && (forall x :: x in r <==> x in visible || exists k :: 0 <= k < |entries| && entries[k] == Entry(true, x))
      && |visible| <= |r| && r[..|visible|] == visible
    decreases |entries|
  {
    if entries != [] {
      var e := entries[0];
      var v := if e.isIntersecting then AddVisible(visible, e.index) else visible;
      if e.isIntersecting {
        AddVisibleProperties(visible, e.index);
      }
      OnEntriesProperties(v, entries[1..]);
      var r := OnEntries(visible, entries);
      assert r == OnEntries(v, entries[1..]);
      assert r[..|visible|] == r[..|v|][..|visible|];
      forall x
        ensures x in r <==> x in visible || exists k :: 0 <= k < |entries| && entries[k] == Entry(true, x)
      {
        if exists k :: 0 <= k < |entries[1..]| && entries[1..][k] == Entry(true, x) {
          var k :| 0 <= k < |entries[1..]| && entries[1..][k] == Entry(true, x);
          assert entries[k + 1] == Entry(true, x);
        }
        if exists k :: 0 <= k < |entries| && entries[k] == Entry(true, x) {
          var k :| 0 <= k < |entries| && entries[k] == Entry(true, x);
          if k > 0 {
            assert entries[1..][k - 1] == Entry(true, x);
          }
        }
      }
    }
  }

  /** Entries that do not intersect leave the list unchanged. */
  lemma {:induction false} NonIntersectingIgnored(visible: seq<nat>, entries: seq<Entry>)
    requires forall k :: 0 <= k < |entries| ==> !entries[k].isIntersecting
    ensures OnEntries(visible, entries) == visible
    decreases |entries|
  {
    if entries != [] {
      NonIntersectingIgnored(visible, entries[1..]);
    }
  }

  /** Entries whose indices are all visible already change nothing. */
  lemma {:induction false} SeenEntriesIgnored(visible: seq<nat>, entries: seq<Entry>)
    requires NoDuplicates(visible)
    requires forall k :: 0 <= k < |entries| && entries[k].isIntersecting ==> entries[k].index in visible
    ensures OnEntries(visible, entries) == visible
    decreases |entries|
  {
    if entries != [] {
      if entries[0].isIntersecting {
        AddVisibleAppends(visible, entries[0].index);
      }
      SeenEntriesIgnored(visible, entries[1..]);
    }
  }

  /** Delivering the same batch of entries twice is the same as once. */
  lemma OnEntriesIdempotent(visible: seq<nat>, entries: seq<Entry>)
    requires NoDuplicates(visible)
    ensures OnEntries(OnEntries(visible, entries), entries) == OnEntries(visible, entries)
  {
    var r := OnEntries(visible, entries);
    OnEntriesProperties(visible, entries);
    forall k | 0 <= k < |entries| && entries[k].isIntersecting
      ensures entries[k].index in r
    {
      assert entries[k] == Entry(true, entries[k].index);
    }
    SeenEntriesIgnored(r, entries);
  }

  /** The class attribute of row `index`. */
  function RowClass(index: nat, visible: seq<nat>): string {
    "showcase-row " + (if index % 2 == 0 then "row-normal" else "row-reverse") + " "
      + (if index in visible then "is-visible" else "")
  }

  lemma ThreeWords(a: string, b: string, c: string)
    requires ' ' !in a && ' ' !in b && ' ' !in c
    ensures Split(a + " " + b + " " + c) == [a, b, c]
  {
    assert a + " " + b + " " + c == a + " " + (b + " " + c);
    SplitAtSpace(a, b + " " + c);
    SplitAtSpace(b, c);
    SplitWord(a);
    SplitWord(b);
    SplitWord(c);
  }

  /** Even rows are laid out normally and odd rows reversed, and a row carries
      `is-visible` exactly when its index is in the list. */
  lemma RowClassTokens(index: nat, visible: seq<nat>)
    ensures HasClass(RowClass(index, visible), "showcase-row")
    ensures HasClass(RowClass(index, visible), "row-normal") <==> index % 2 == 0
    ensures HasClass(RowClass(index, visible), "row-reverse") <==> index % 2 == 1
    ensures HasClass(RowClass(index, visible), "is-visible") <==> index in visible
  {
    var orient := if index % 2 == 0 then "row-normal" else "row-reverse";
    var vis := if index in visible then "is-visible" else "";
    assert ' ' !in "showcase-row" && ' ' !in orient && ' ' !in vis;
    assert "showcase-row " == "showcase-row" + " ";
    assert RowClass(index, visible) == "showcase-row" + " " + orient + " " + vis;
    ThreeWords("showcase-row", orient, vis);
    assert "is-visible"[0] != "row-normal"[0];
  }
}
