/** Documents as sets of changes.

    A change carries the changes it depends on. This is the content addressing of a change by its
    hash: two changes are equal exactly when author, operation and the whole history below them are,
    and no change can be part of its own history. A document is a finite set of changes that holds
    the history of each of its members. */
module ChangeGraph {

  /** What a change does: set up an empty chat document, or append one message to its author's
      list. `creates` says that the author found no list of its own and created it first. */
  datatype Op = Setup | Append(creates: bool, msg: nat)

  datatype Change = Change(author: nat, op: Op, deps: set<Change>)

  type Changes = set<Change>

  /** `c` is `x` or part of its history. */
  predicate Below(c: Change, x: Change)
    decreases x
  {
    c == x || exists d :: d in x.deps && Below(c, d)
  }

  predicate Reached(hs: Changes, c: Change) {
    exists h :: h in hs && Below(c, h)
  }

  predicate Closed(doc: Changes) {
    forall c :: c in doc ==> c.deps <= doc
  }

  /** `get_heads`: the changes nothing else in the document depends on. */
  function Heads(doc: Changes): (hs: Changes)
    ensures hs <= doc
  {
    set c | c in doc && forall d :: d in doc ==> c !in d.deps
  }

  /** `save_after`: the changes that are not in the history of the given heads. */
  function SaveAfter(doc: Changes, hs: Changes): (cs: Changes)
    ensures cs <= doc
  {
    set c | c in doc && !Reached(hs, c)
  }

  /** The whole history of a change is at hand. */
  predicate Ready(pool: Changes, c: Change)
    decreases c
  {
    c in pool && forall d :: d in c.deps ==> Ready(pool, d)
  }

  /** Applying changes to a document: those whose history is incomplete are not applied. */
  function Integrate(doc: Changes, cs: Changes): Changes {
    set c | c in doc + cs && Ready(doc + cs, c)
  }

  /** `hs` stands for exactly the document `doc`. */
  ghost predicate Generates(hs: Changes, doc: Changes) {
    Closed(doc) && hs <= doc && forall c :: c in doc ==> Reached(hs, c)
  }

  lemma {:induction false} BelowIsOlder(c: Change, x: Change)
    requires Below(c, x)
    ensures c == x || c < x
    decreases x
  {
    if c != x {
      var d :| d in x.deps && Below(c, d);
      BelowIsOlder(c, d);
    }
  }

  lemma {:induction false} BelowTrans(a: Change, b: Change, c: Change)
    requires Below(a, b) && Below(b, c)
    ensures Below(a, c)
    decreases c
  {
    if b != c {
      var d :| d in c.deps && Below(b, d);
      BelowTrans(a, b, d);
    }
  }

  lemma {:induction false} ClosedHoldsHistory(doc: Changes, c: Change, x: Change)
    requires Closed(doc) && x in doc && Below(c, x)
    ensures c in doc
    decreases x
  {
    if c != x {
      var d :| d in x.deps && Below(c, d);
      ClosedHoldsHistory(doc, c, d);
    }
  }

  /** The heads of a document generate it: every change is in the history of some head. */
  lemma HeadsGenerate(doc: Changes)
    requires Closed(doc)
    ensures Generates(Heads(doc), doc)
  {
    forall c | c in doc
      ensures Reached(Heads(doc), c)
    {
      HeadAbove(doc, c);
    }
  }

  /** The heads are no more than needed: none is in the history of another, and whatever generates the
      document has all of them. */
  lemma HeadsAreLeast(doc: Changes)
    requires Closed(doc)
    ensures forall h, k :: h in Heads(doc) && k in Heads(doc) && Below(h, k) ==> h == k
    ensures forall hs :: Generates(hs, doc) ==> Heads(doc) <= hs
  {
    forall h, x | h in Heads(doc) && x in doc && Below(h, x)
      ensures h == x
    {
      HeadOnTop(doc, h, x);
    }
    forall hs, h | Generates(hs, doc) && h in Heads(doc)
      ensures h in hs
    {
      var x :| x in hs && Below(h, x);
      HeadOnTop(doc, h, x);
    }
  }

  lemma {:induction false} HeadOnTop(doc: Changes, h: Change, x: Change)
    requires Closed(doc) && h in Heads(doc) && x in doc && Below(h, x)
    ensures h == x
    decreases x
  {
    if h != x {
      var d :| d in x.deps && Below(h, d);
      HeadOnTop(doc, h, d);
    }
  }

  ghost function Above(doc: Changes, c: Change): Changes {
    set d | d in doc && d != c && Below(c, d)
  }

  lemma HeadAbove(doc: Changes, c: Change)
    requires c in doc
    ensures Reached(Heads(doc), c)
    decreases |Above(doc, c)|
  {
    if c in Heads(doc) {
      assert Below(c, c);
    } else {
      var d :| d in doc && c in d.deps;
      assert Below(c, c);
      assert Below(c, d);
      AboveShrinks(doc, c, d);
      HeadAbove(doc, d);
      var h :| h in Heads(doc) && Below(d, h);
      BelowTrans(c, d, h);
    }
  }

  lemma AboveShrinks(doc: Changes, c: Change, d: Change)
    requires d in doc && c != d && Below(c, d)
    ensures |Above(doc, d)| < |Above(doc, c)|
  {
    forall e | e in Above(doc, d)
      ensures e in Above(doc, c) - {d}
    {
      BelowTrans(c, d, e);
      BelowIsOlder(d, e);
      BelowIsOlder(c, d);
    }
    assert d in Above(doc, c);
    assert Above(doc, d) <= Above(doc, c) - {d};
    Smaller(Above(doc, d), Above(doc, c) - {d});
  }

  lemma Smaller<T>(a: set<T>, b: set<T>)
    requires a <= b
    ensures |a| <= |b|
  {
    if a != {} {
      var x :| x in a;
      Smaller(a - {x}, b - {x});
    }
  }

  /** What `save_after` leaves out of a document is exactly what its heads stand for. */
  lemma SaveAfterComplements(doc: Changes, saved: Changes, hs: Changes)
    requires Closed(doc) && Generates(hs, saved) && saved <= doc
    ensures SaveAfter(doc, hs) == doc - saved
  {
    forall c | c in doc
      ensures Reached(hs, c) <==> c in saved
    {
      if Reached(hs, c) {
        var h :| h in hs && Below(c, h);
        ClosedHoldsHistory(saved, c, h);
      }
    }
  }

  /** Applying changes never loses one, keeps the document closed, and applies all it can. */
  lemma IntegrateIsLargest(doc: Changes, cs: Changes)
    requires Closed(doc)
    ensures doc <= Integrate(doc, cs) <= doc + cs && Closed(Integrate(doc, cs))
    ensures forall d: Changes :: Closed(d) && d <= doc + cs ==> d <= Integrate(doc, cs)
    ensures Closed(doc + cs) ==> Integrate(doc, cs) == doc + cs
  {
    forall d: Changes, c | Closed(d) && d <= doc + cs && c in d
      ensures Ready(doc + cs, c)
    {
      ReadyInClosed(doc + cs, d, c);
    }
    assert doc <= doc + cs;
    forall c, d | c in Integrate(doc, cs) && d in c.deps
      ensures d in Integrate(doc, cs)
    {
      assert Ready(doc + cs, d);
    }
    if Closed(doc + cs) {
      assert doc + cs <= doc + cs;
    }
  }

  lemma {:induction false} ReadyInClosed(pool: Changes, d: Changes, c: Change)
    requires Closed(d) && d <= pool && c in d
    ensures Ready(pool, c)
    decreases c
  {
    forall e | e in c.deps
      ensures Ready(pool, e)
    {
      ReadyInClosed(pool, d, e);
    }
  }

  lemma OlderThanTop(doc: Changes, c: Change, x: Change)
    requires Closed(doc) && c.deps == Heads(doc) && x in doc
    ensures x != c && Below(x, c)
  {
    HeadsGenerate(doc);
    var h :| h in Heads(doc) && Below(x, h);
    BelowIsOlder(x, h);
  }

  /** A new change on top of all heads of a document is new to it and has all of it in its history. */
  lemma OnTop(doc: Changes, c: Change)
    requires Closed(doc) && c.deps == Heads(doc)
    ensures c !in doc && Closed(doc + {c})
    ensures forall d :: Below(d, c) <==> d == c || d in doc
  {
    forall x | x in doc
      ensures x != c && Below(x, c)
    {
      OlderThanTop(doc, c, x);
    }
    forall d | Below(d, c) && d != c
      ensures d in doc
    {
      var h :| h in c.deps && Below(d, h);
      ClosedHoldsHistory(doc, d, h);
    }
  }

  // ----- reading a chain of changes in order

  /** Any two of the changes are in each other's history. */
  ghost predicate Chain(cs: Changes) {
    forall c, d :: c in cs && d in cs ==> Below(c, d) || Below(d, c)
  }

  /** A listing of exactly these changes, none twice, none before one of its own history. */
  ghost predicate Lists(s: seq<Change>, cs: Changes) {
    && (forall c :: c in s <==> c in cs)
    && (forall i, j :: 0 <= i < j < |s| ==> s[i] != s[j] && !Below(s[j], s[i]))
  }

  /** Two listings, one of a chain and one of a part of it that holds its own history, agree as far
      as the shorter one goes. */
  lemma ListsPrefix(part: Changes, all: Changes, s: seq<Change>, t: seq<Change>)
    requires Chain(all) && part <= all && Lists(s, part) && Lists(t, all)
    requires forall c, d :: c in part && d in all && Below(d, c) ==> d in part
    ensures s <= t
  {
    ListsAgree(part, all, s, t, |s|);
  }

  lemma {:induction false} ListsAgree(part: Changes, all: Changes, s: seq<Change>, t: seq<Change>, n: nat)
    requires Chain(all) && part <= all && Lists(s, part) && Lists(t, all) && n <= |s|
    requires forall c, d :: c in part && d in all && Below(d, c) ==> d in part
    ensures n <= |t| && s[..n] == t[..n]
  {
    if n > 0 {
      var i := n - 1;
      ListsAgree(part, all, s, t, i);
      forall j | 0 <= j < i
        ensures s[j] == t[j]
      {
        assert s[j] == s[..i][j] && t[j] == t[..i][j];
      }
      assert s[i] in s && s[i] in t;
      var k :| 0 <= k < |t| && t[k] == s[i];
      assert i <= k;
      assert t[i] in t;
      if Below(t[i], s[i]) {
        assert t[i] in s;
        var m :| 0 <= m < |s| && s[m] == t[i];
        assert m == i;
      }
    }
  }

  lemma {:induction false} ListsLength(s: seq<Change>, cs: Changes)
    requires Lists(s, cs)
    ensures |s| == |cs|
  {
    if s == [] {
      assert cs == {};
    } else {
      var n := |s| - 1;
      assert s[n] in s;
      assert forall c :: c in s[..n] <==> c in s && c != s[n];
      ListsLength(s[..n], cs - {s[n]});
    }
  }

  lemma Topmost(cs: Changes, c: Change) returns (top: Change)
    requires c in cs
    ensures top in cs && forall d :: d in cs && Below(top, d) ==> d == top
    decreases |Above(cs, c)|
  {
    if d :| d in cs && Below(c, d) && d != c {
      AboveShrinks(cs, c, d);
      top := Topmost(cs, d);
    } else {
      top := c;
    }
  }

  /** Every finite set of changes can be listed. */
  lemma ListingExists(cs: Changes) returns (s: seq<Change>)
    ensures Lists(s, cs)
    decreases |cs|
  {
    if cs == {} {
      s := [];
    } else {
      var c :| c in cs;
      var top := Topmost(cs, c);
      var rest := ListingExists(cs - {top});
      s := rest + [top];
      assert forall i :: 0 <= i < |rest| ==> rest[i] in rest;
    }
  }
}
