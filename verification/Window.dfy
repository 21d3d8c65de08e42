/** Exactly when looking only at the end of each list gives the right page.

    Nothing makes the lists come in order: times are read from a clock that may be set back, and ids
    are random, so two messages of one millisecond stand in any order. */
module Window {
  import opened Ordering
  import opened Pagination
  import opened History

  /** A sequence without the elements of another. */
  ghost function Without<T>(s: seq<T>, gone: seq<T>): seq<T> {
    if s == [] then []
    else Without(s[..|s| - 1], gone) + (if s[|s| - 1] in gone then [] else [s[|s| - 1]])
  }

  lemma WithoutSnoc<T>(s: seq<T>, x: T, gone: seq<T>)
    ensures Without(s + [x], gone) == Without(s, gone) + if x in gone then [] else [x]
  {
    assert (s + [x])[..|s|] == s;
  }

  lemma {:induction false} WithoutConcat<T>(a: seq<T>, b: seq<T>, gone: seq<T>)
    ensures Without(a + b, gone) == Without(a, gone) + Without(b, gone)
  {
    if b == [] {
      assert a + b == a;
    } else {
      var shorter, x := b[..|b| - 1], b[|b| - 1];
      WithoutConcat(a, shorter, gone);
      assert a + b == (a + shorter) + [x];
      WithoutSnoc(a + shorter, x, gone);
    }
  }

  lemma {:induction false} WithoutMembers<T>(s: seq<T>, gone: seq<T>)
    ensures forall x :: x in Without(s, gone) <==> x in s && x !in gone
  {
    if s != [] {
      assert s == s[..|s| - 1] + [s[|s| - 1]];
      WithoutMembers(s[..|s| - 1], gone);
    }
  }

  lemma {:induction false} WithoutNone<T>(s: seq<T>, gone: seq<T>)
    requires forall x :: x in s ==> x !in gone
    ensures Without(s, gone) == s
  {
    if s != [] {
      assert s == s[..|s| - 1] + [s[|s| - 1]];
      WithoutNone(s[..|s| - 1], gone);
    }
  }

  lemma {:induction false} WithoutLength<T>(s: seq<T>, gone: seq<T>)
    ensures |Without(s, gone)| <= |s|
    ensures (exists x :: x in s && x in gone) ==> |Without(s, gone)| < |s|
  {
    if s != [] {
      assert s == s[..|s| - 1] + [s[|s| - 1]];
      WithoutLength(s[..|s| - 1], gone);
    }
  }

  lemma {:induction false} WithoutIsCanonical(s: seq<Message>, gone: seq<Message>)
    requires Canonical(s)
    ensures Canonical(Without(s, gone))
  {
    if s != [] {
      var shorter, m := s[..|s| - 1], s[|s| - 1];
      CanonicalFront(s);
      WithoutIsCanonical(shorter, gone);
      var r := Without(shorter, gone);
      forall i | 0 <= i < |r|
        ensures r[i] in shorter
      {
        WithoutMembers(shorter, gone);
        assert r[i] in r;
      }
      if m in gone {
        assert Without(s, gone) == r;
      } else {
        CanonicalSnoc(r, m);
      }
    }
  }

  lemma CanonicalFront(s: seq<Message>)
    requires Canonical(s) && s != []
    ensures Canonical(s[..|s| - 1])
    ensures forall m :: m in s[..|s| - 1] ==>
      Leq(KeyOf(m, true), KeyOf(s[|s| - 1], true)) && m.id != s[|s| - 1].id
  {
    var n := |s| - 1;
    assert KeysOf(s, true)[..n] == KeysOf(s[..n], true);
    forall m | m in s[..n]
      ensures Leq(KeyOf(m, true), KeyOf(s[n], true)) && m.id != s[n].id
    {
      var i :| 0 <= i < n && s[i] == m;
      assert Leq(KeysOf(s, true)[i], KeysOf(s, true)[n]);
    }
  }

  lemma CanonicalSnoc(s: seq<Message>, m: Message)
    requires Canonical(s)
    requires forall i :: 0 <= i < |s| ==> Leq(KeyOf(s[i], true), KeyOf(m, true)) && s[i].id != m.id
    ensures Canonical(s + [m])
  {
    assert KeysOf(s + [m], true) == KeysOf(s, true) + [KeyOf(m, true)];
  }

  /** The ends of the lists hold exactly the messages that are not left out. */
  lemma {:induction false} TailsSplit(lists: seq<seq<Message>>, d: nat)
    requires DistinctIds(Flatten(lists))
    ensures DistinctIds(Flatten(Tails(lists, d)))
    ensures forall m :: m in Flatten(Tails(lists, d)) <==> m in Flatten(lists) && m !in Rests(lists, d)
    ensures forall m :: m in Rests(lists, d) ==> m in Flatten(lists)
  {
    if lists != [] {
      var l, more := lists[0], Flatten(lists[1..]);
      var rest := if |l| <= d then [] else l[..|l| - d];
      assert Tails(lists, d)[1..] == Tails(lists[1..], d);
      assert l == rest + Last(l, d);
      DistinctSplit(l, more);
      TailsSplit(lists[1..], d);
      SplitBoth(rest, Last(l, d), more, Rests(lists[1..], d), Flatten(Tails(lists[1..], d)));
    }
  }

  lemma SplitBoth(rest: seq<Message>, tail: seq<Message>,
                  more: seq<Message>, moreRest: seq<Message>, moreTail: seq<Message>)
    requires DistinctIds(rest + tail + more) && DistinctIds(moreTail)
    requires forall m :: m in moreTail <==> m in more && m !in moreRest
    requires forall m :: m in moreRest ==> m in more
    ensures DistinctIds(tail + moreTail)
    ensures forall m :: m in tail + moreTail <==> m in rest + tail + more && m !in rest + moreRest
  {
    DistinctSplit(rest + tail, more);
    DistinctSplit(rest, tail);
    DistinctJoin(tail, moreTail);
  }

  lemma DistinctSplit(a: seq<Message>, b: seq<Message>)
    requires DistinctIds(a + b)
    ensures DistinctIds(a) && DistinctIds(b)
    ensures forall m, n :: m in a && n in b ==> m.id != n.id
  {
    assert forall i :: 0 <= i < |a| ==> a[i] == (a + b)[i];
    assert forall i :: 0 <= i < |b| ==> b[i] == (a + b)[|a| + i];
  }

  lemma DistinctJoin(a: seq<Message>, b: seq<Message>)
    requires DistinctIds(a) && DistinctIds(b)
    requires forall m, n :: m in a && n in b ==> m.id != n.id
    ensures DistinctIds(a + b)
  {
  }

  /** What a page is cut from: the sorted history without the messages left out. */
  lemma KeptIsWithout(lists: seq<seq<Message>>, d: nat)
    requires DistinctIds(Flatten(lists))
    ensures SortMessages(Flatten(Tails(lists, d))) == Without(SortMessages(Flatten(lists)), Rests(lists, d))
    ensures Canonical(SortMessages(Flatten(lists)))
  {
    var all, kept := SortMessages(Flatten(lists)), SortMessages(Flatten(Tails(lists, d)));
    TailsSplit(lists, d);
    SortIsCanonical(Flatten(lists));
    SortIsCanonical(Flatten(Tails(lists, d)));
    SortKeepsMessages(Flatten(lists));
    SortKeepsMessages(Flatten(Tails(lists, d)));
    WithoutIsCanonical(all, Rests(lists, d));
    WithoutMembers(all, Rests(lists, d));
    DistinctIdentifies(kept);
    CanonicalIsUnique(kept, Without(all, Rests(lists, d)));
  }

  /** No message left out is among the newest `d` of all. */
  ghost predicate Reaches(lists: seq<seq<Message>>, d: nat) {
    forall m :: m in Rests(lists, d) ==> m !in Last(SortMessages(Flatten(lists)), d)
  }

  lemma SliceWithout<T>(all: seq<T>, gone: seq<T>, offset: nat, limit: nat)
    requires offset + limit <= |all| && forall m :: m in Last(all, offset + limit) ==> m !in gone
    ensures Slice(Without(all, gone), offset, limit) == Slice(all, offset, limit)
  {
    var d := offset + limit;
    var older, newest := all[..|all| - d], all[|all| - d..];
    assert Last(all, d) == newest && all == older + newest;
    WithoutConcat(older, newest, gone);
    WithoutNone(newest, gone);
    SliceInLast(all, offset, limit);
    SliceInLast(Without(all, gone), offset, limit);
    assert Last(Without(all, gone), d) == newest;
  }

  /** Where an element is left out after one that stays, that one moves nearer to the end. */
  lemma LaterGone<T>(s: seq<T>, after: nat, gone: seq<T>, x: T)
    requires after < |s| && x in s[|s| - after..] && x in gone
    requires s[|s| - after - 1] !in s[..|s| - after - 1] && s[|s| - after - 1] !in gone
    ensures
      var kept := Without(s, gone);
      after < |kept| ==> kept[|kept| - after - 1] != s[|s| - after - 1]
  {
    var older, y, newer := s[..|s| - after - 1], s[|s| - after - 1], s[|s| - after..];
    assert s == older + [y] + newer;
    WithoutConcat(older + [y], newer, gone);
    WithoutConcat(older, [y], gone);
    WithoutMembers(older, gone);
    WithoutLength(newer, gone);
    var kept := Without(s, gone);
    assert kept == Without(older, gone) + [y] + Without(newer, gone);
    assert |Without(newer, gone)| < |newer|;
    if |newer| < |kept| {
      var i := |kept| - |newer| - 1;
      assert kept[i] == Without(older, gone)[i];
      assert kept[i] in Without(older, gone);
    }
  }

  lemma SameSliceEnd<T>(a: seq<T>, b: seq<T>, offset: nat, limit: nat)
    requires 0 < limit && offset + limit <= |a| && offset + limit <= |b|
    requires Slice(a, offset, limit) == Slice(b, offset, limit)
    ensures a[|a| - offset - 1] == b[|b| - offset - 1] && a[|a| - offset - 1] in Slice(b, offset, limit)
  {
    assert Slice(a, offset, limit)[limit - 1] == a[|a| - offset - 1];
    assert Slice(b, offset, limit)[limit - 1] == b[|b| - offset - 1];
  }

  lemma SliceKept<T>(kept: seq<T>, all: seq<T>, gone: seq<T>, offset: nat, limit: nat)
    requires Slice(kept, offset, limit) == Slice(all, offset, limit)
    requires forall x :: x in kept ==> x !in gone
    ensures forall x :: x in Slice(all, offset, limit) ==> x !in gone
  {
    assert forall x :: x in Slice(kept, offset, limit) ==> x in kept;
  }

  lemma GoneIsSkipped<T>(kept: seq<T>, all: seq<T>, gone: seq<T>, offset: nat, limit: nat, x: T)
    requires Slice(kept, offset, limit) == Slice(all, offset, limit) && offset <= |all|
    requires forall y :: y in kept ==> y !in gone
    requires x in gone && x in Last(all, offset + limit)
    ensures x in all[|all| - offset..]
  {
    SliceKept(kept, all, gone, offset, limit);
    SliceBeforeLast(all, offset, limit);
  }

  lemma EndStays<T>(kept: seq<T>, all: seq<T>, gone: seq<T>, offset: nat, limit: nat)
    requires 0 < limit && offset + limit <= |kept| && offset + limit <= |all|
    requires Slice(kept, offset, limit) == Slice(all, offset, limit)
    requires forall y :: y in kept ==> y !in gone
    ensures all[|all| - offset - 1] == kept[|kept| - offset - 1] && all[|all| - offset - 1] !in gone
  {
    SameSliceEnd(kept, all, offset, limit);
  }

  /** A slice that stays the same has none of the elements left out, and none is left out after it. */
  lemma SliceDiffers<T>(kept: seq<T>, all: seq<T>, gone: seq<T>, offset: nat, limit: nat, x: T)
    requires 0 < limit && offset + limit <= |kept| <= |all| && forall y :: y in kept ==> y !in gone
    requires x in gone && x in Last(all, offset + limit)
    requires
      var y := all[|all| - offset - 1];
      y !in gone && x in all[|all| - offset..] ==> kept[|kept| - offset - 1] != y
    ensures Slice(kept, offset, limit) != Slice(all, offset, limit)
  {
    if Slice(kept, offset, limit) == Slice(all, offset, limit) {
      GoneIsSkipped(kept, all, gone, offset, limit, x);
      EndStays(kept, all, gone, offset, limit);
    }
  }

  /** No element comes twice. */
  ghost predicate Distinct<T>(s: seq<T>) {
    forall k :: 0 <= k < |s| ==> s[k] !in s[..k]
  }

  lemma IdsDistinguish(ms: seq<Message>)
    requires DistinctIds(ms)
    ensures Distinct(ms)
  {
  }

  lemma EndMoves<T>(all: seq<T>, gone: seq<T>, offset: nat, x: T)
    requires Distinct(all) && offset < |Without(all, gone)| <= |all| && x in gone
    ensures
      var kept, y := Without(all, gone), all[|all| - offset - 1];
      y !in gone && x in all[|all| - offset..] ==> kept[|kept| - offset - 1] != y
  {
    if all[|all| - offset - 1] !in gone && x in all[|all| - offset..] {
      LaterGone(all, offset, gone, x);
    }
  }

  lemma KeptStays<T>(all: seq<T>, gone: seq<T>)
    ensures forall x :: x in Without(all, gone) ==> x !in gone
  {
    WithoutMembers(all, gone);
  }

  lemma SliceChanges<T>(all: seq<T>, gone: seq<T>, offset: nat, limit: nat, x: T)
    requires Distinct(all) && 0 < limit && offset + limit <= |Without(all, gone)| <= |all|
    requires x in gone && x in Last(all, offset + limit)
    ensures Slice(Without(all, gone), offset, limit) != Slice(all, offset, limit)
  {
    EndMoves(all, gone, offset, x);
    KeptStays(all, gone);
    SliceDiffers(Without(all, gone), all, gone, offset, limit, x);
  }

  lemma SliceIff<T>(all: seq<T>, gone: seq<T>, offset: nat, limit: nat)
    requires Distinct(all) && offset + limit <= |Without(all, gone)| <= |all|
    ensures Slice(Without(all, gone), offset, limit) == Slice(all, offset, limit) <==>
      limit == 0 || forall m :: m in gone ==> m !in Last(all, offset + limit)
  {
    if forall m :: m in gone ==> m !in Last(all, offset + limit) {
      SliceWithout(all, gone, offset, limit);
    } else if limit > 0 {
      var x :| x in gone && x in Last(all, offset + limit);
      SliceChanges(all, gone, offset, limit, x);
    } else {
      SliceLength(all, offset, 0);
      SliceLength(Without(all, gone), offset, 0);
    }
  }

  /** The window of a page is wide enough: there is nothing to show, or no message beyond the depth of
      its list is among the newest `offset + limit` of all. */
  ghost predicate WideEnough(lists: seq<seq<Message>>, offset: nat, limit: nat) {
    limit == 0 || |Flatten(lists)| <= offset || Reaches(lists, offset + limit)
  }

  lemma EnoughKept(lists: seq<seq<Message>>, d: nat)
    requires DistinctIds(Flatten(lists)) && Rests(lists, d) != []
    ensures
      var all := SortMessages(Flatten(lists));
      Distinct(all) && d <= |Without(all, Rests(lists, d))| <= |all| && |all| == |Flatten(lists)| > d
  {
    KeptIsWithout(lists, d);
    SortLength(Flatten(lists));
    SortLength(Flatten(Tails(lists, d)));
    TailsLength(lists, d);
    IdsDistinguish(SortMessages(Flatten(lists)));
  }

  lemma PageIsSlice(lists: seq<seq<Message>>, offset: usize, limit: usize)
    requires DistinctIds(Flatten(lists)) && offset + limit < USIZE_LIMIT
    ensures Page(lists, offset, limit)
         == Slice(Without(SortMessages(Flatten(lists)), Rests(lists, offset + limit)), offset, limit)
  {
    DepthFits(offset, limit);
    assert SortMessages(Flatten(Tails(lists, offset + limit)))
        == Without(SortMessages(Flatten(lists)), Rests(lists, offset + limit)) by {
      KeptIsWithout(lists, offset + limit);
    }
  }

  lemma FullWindow(lists: seq<seq<Message>>, offset: usize, limit: usize)
    requires offset + limit < USIZE_LIMIT && Rests(lists, offset + limit) == []
    ensures Page(lists, offset, limit) == FullPage(lists, offset, limit) && Reaches(lists, offset + limit)
  {
    DepthFits(offset, limit);
    RestsEmptyIff(lists, offset + limit);
  }

  /** For any lists with unique ids, a page is the slice of the fully sorted history exactly if its
      window is wide enough. */
  lemma PageIsFullPageIff(lists: seq<seq<Message>>, offset: usize, limit: usize)
    requires DistinctIds(Flatten(lists)) && offset + limit < USIZE_LIMIT
    ensures Page(lists, offset, limit) == FullPage(lists, offset, limit) <==> WideEnough(lists, offset, limit)
  {
    var d, all := offset + limit, SortMessages(Flatten(lists));
    if Rests(lists, d) == [] {
      FullWindow(lists, offset, limit);
    } else {
      PageIsSlice(lists, offset, limit);
      EnoughKept(lists, d);
      WideEnoughIff(lists, all, Rests(lists, d), offset, limit);
    }
  }

  lemma WideEnoughIff(lists: seq<seq<Message>>, all: seq<Message>, rest: seq<Message>, offset: nat, limit: nat)
    requires all == SortMessages(Flatten(lists)) && rest == Rests(lists, offset + limit) && Distinct(all)
    requires offset + limit <= |Without(all, rest)| <= |all| && |Flatten(lists)| > offset + limit
    ensures Slice(Without(all, rest), offset, limit) == Slice(all, offset, limit) <==>
      WideEnough(lists, offset, limit)
  {
    SliceIff(all, rest, offset, limit);
  }

  // ----- which messages a page shows

  /** The messages that come after `m`. */
  ghost function LaterThan(ms: seq<Message>, m: Message): set<Message> {
    set n | n in ms && Earlier(m, n)
  }

  lemma {:induction false} CountDistinct(s: seq<Message>)
    requires DistinctIds(s)
    ensures |set m | m in s| == |s|
  {
    if s != [] {
      CountDistinct(s[1..]);
      assert s == [s[0]] + s[1..];
      assert s[0] !in s[1..];
      assert (set m | m in s) == (set m | m in s[1..]) + {s[0]};
    }
  }

  lemma LaterInOrder(all: seq<Message>, i: nat)
    requires Chronological(all) && DistinctIds(all) && i < |all|
    ensures |LaterThan(all, all[i])| == |all| - 1 - i
  {
    var later := all[i + 1..];
    assert LaterThan(all, all[i]) == (set m | m in later) by {
      forall m | m in all
        ensures Earlier(all[i], m) <==> m in later
      {
        var k :| 0 <= k < |all| && all[k] == m;
        if k > i {
          assert later[k - i - 1] == m;
        }
        if m in later {
          var j :| 0 <= j < |later| && later[j] == m;
          assert all[i + 1 + j] == m;
        }
      }
    }
    assert forall a, b :: 0 <= a < b < |later| ==> later[a] == all[i + 1 + a] && later[b] == all[i + 1 + b];
    CountDistinct(later);
  }

  /** Which messages a page shows: if its window is wide enough, message `k` of the page is the one with
      exactly as many later messages as are skipped, and stand after it on the page. */
  lemma PageRanks(lists: seq<seq<Message>>, offset: usize, limit: usize, k: nat)
    requires DistinctIds(Flatten(lists)) && offset + limit < USIZE_LIMIT && WideEnough(lists, offset, limit)
    requires k < |Page(lists, offset, limit)|
    ensures
      var page := Page(lists, offset, limit);
      |LaterThan(Flatten(lists), page[k])| == offset + |page| - 1 - k
  {
    var all, page := SortMessages(Flatten(lists)), Page(lists, offset, limit);
    PageIsFullPageIff(lists, offset, limit);
    SortIsChronological(Flatten(lists));
    SortKeepsIds(Flatten(lists));
    var i := |all| - offset - |page| + k;
    SlicePlace(all, offset, limit, k);
    LaterInOrder(all, i);
    assert LaterThan(Flatten(lists), page[k]) == LaterThan(all, all[i]);
  }

  lemma SlicePlace(s: seq<Message>, offset: nat, limit: nat, k: nat)
    requires k < |Slice(s, offset, limit)|
    ensures offset + |Slice(s, offset, limit)| <= |s|
    ensures Slice(s, offset, limit)[k] == s[|s| - offset - |Slice(s, offset, limit)| + k]
  {
  }

  /** Two messages of one millisecond, the one with the larger id first: the newest page of one shows
      the wrong one of them. */
  lemma SameMillisecond() returns (lists: seq<seq<Message>>)
    ensures |lists| == 1 && |lists[0]| == 2 && InTime(lists[0]) && DistinctIds(Flatten(lists))
    ensures Page(lists, 0, 1) == [lists[0][1]] && FullPage(lists, 0, 1) == [lists[0][0]] != [lists[0][1]]
  {
    var a, b := Message(5, 0, "", 7, 7), Message(3, 0, "", 7, 7);
    lists := [[a, b]];
    assert Flatten(lists) == [a, b] + Flatten(lists[1..]);
    assert Flatten(lists) == [a, b];
    assert Tails(lists, 1) == [[b]];
    assert Flatten([[b]]) == [b] + Flatten<Message>([]);
    assert SortMessages([b]) == [b];
    assert [a, b][1..] == [b];
    assert SortMessages([a, b]) == Place(a, [b]) == [b] + Place(a, []) == [b, a];
  }

  // ----- joining pages

  lemma SameLength(lists: seq<seq<Message>>, offset: usize, limit: usize)
    requires offset + limit < USIZE_LIMIT
    ensures |Page(lists, offset, limit)| == |FullPage(lists, offset, limit)|
  {
    PageLength(lists, offset, limit);
    SortLength(Flatten(lists));
  }

  lemma ConcatIff<T>(a: seq<T>, b: seq<T>, c: seq<T>, d: seq<T>)
    requires |a| == |c|
    ensures a + b == c + d <==> a == c && b == d
  {
    if a + b == c + d {
      assert a == (a + b)[..|a|] && b == (a + b)[|a|..];
    }
  }

  /** Page number `k`, from the newest, is what it should be. */
  ghost predicate IsFullPage(lists: seq<seq<Message>>, size: usize, k: nat) {
    var offset := Span(size, k);
    offset + size < USIZE_LIMIT && Page(lists, offset, size) == FullPage(lists, offset, size)
  }

  ghost predicate JoinUp(lists: seq<seq<Message>>, size: usize, n: nat)
    requires Span(size, n) < USIZE_LIMIT
  {
    Joined(lists, size, n) == Last(SortMessages(Flatten(lists)), Span(size, n))
  }

  lemma OnePageMore(lists: seq<seq<Message>>, size: usize, k: nat)
    requires Span(size, k) + size < USIZE_LIMIT
    ensures JoinUp(lists, size, k + 1) <==> IsFullPage(lists, size, k) && JoinUp(lists, size, k)
  {
    var all, offset := SortMessages(Flatten(lists)), Span(size, k);
    SameLength(lists, offset, size);
    SliceBeforeLast(all, offset, size);
    ConcatIff(Page(lists, offset, size), Joined(lists, size, k), FullPage(lists, offset, size), Last(all, offset));
  }

  /** The windows of the newest `n` pages are wide enough. */
  ghost predicate AllWide(lists: seq<seq<Message>>, size: usize, n: nat) {
    n == 0 || (WideEnough(lists, Span(size, n - 1), size) && AllWide(lists, size, n - 1))
  }

  lemma NoPage(lists: seq<seq<Message>>, size: usize)
    ensures JoinUp(lists, size, 0) && AllWide(lists, size, 0)
  {
  }

  lemma OneWidePageMore(lists: seq<seq<Message>>, size: usize, k: nat)
    requires DistinctIds(Flatten(lists)) && Span(size, k) + size < USIZE_LIMIT
    ensures JoinUp(lists, size, k + 1) <==> WideEnough(lists, Span(size, k), size) && JoinUp(lists, size, k)
  {
    OnePageMore(lists, size, k);
    PageIsFullPageIff(lists, Span(size, k), size);
  }

  /** For any lists with unique ids, consecutive pages join to the end of the sorted history, without
      gap or repetition, exactly if the window of each of them is wide enough. */
  lemma {:induction false} PagesJoinIff(lists: seq<seq<Message>>, size: usize, n: nat)
    requires DistinctIds(Flatten(lists)) && Span(size, n) < USIZE_LIMIT
    ensures JoinUp(lists, size, n) <==> AllWide(lists, size, n)
  {
    if n == 0 {
      NoPage(lists, size);
    } else {
      PagesJoinIff(lists, size, n - 1);
      OneWidePageMore(lists, size, n - 1);
    }
  }
}
