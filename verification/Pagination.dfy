/**
 Cursor pagination of tags and of the catalog (internal/httpserver/server.go:826-851, 876-913, 1121-1144;
 OCI Distribution Specification v1.1, section "Listing Tags").
 */
module Pagination {
  import opened Wrappers
  import opened UploadAppend

  // ---------------------------------------------------------------- the order of names

  predicate Less(a: string, b: string) {
    if b == "" then false
    else if a == "" then true
    else a[0] < b[0] || (a[0] == b[0] && Less(a[1..], b[1..]))
  }

  lemma {:induction false} LessIsTransitive(a: string, b: string, c: string)
    requires Less(a, b) && Less(b, c)
    ensures Less(a, c)
  {
    if a != "" && a[0] == b[0] && b[0] == c[0] {
      LessIsTransitive(a[1..], b[1..], c[1..]);
    }
  }

  lemma {:induction false} LessIsTotal(a: string, b: string)
    ensures a == b || Less(a, b) || Less(b, a)
    ensures !(Less(a, b) && Less(b, a)) && !Less(a, a)
  {
    if a != "" && b != "" && a[0] == b[0] {
      LessIsTotal(a[1..], b[1..]);
      assert a == [a[0]] + a[1..] && b == [b[0]] + b[1..];
    }
    if a != "" {
      LessIsTotal(a[1..], a[1..]);
    }
  }

  /** The order of a dictionary: a proper beginning comes first, and else the first character that differs decides. */
  lemma {:induction false} LessExactly(a: string, b: string)
    ensures Less(a, b) <==>
            || a < b
            || exists k :: 0 <= k < |a| && k < |b| && a[..k] == b[..k] && a[k] < b[k]
  {
    if a != "" && b != "" && a[0] == b[0] {
      LessExactly(a[1..], b[1..]);
      assert a[1..] < b[1..] <==> a < b by {
        assert a == [a[0]] + a[1..] && b == [b[0]] + b[1..];
      }
      forall k | 0 < k < |a| && k < |b|
        ensures a[..k] == b[..k] <==> a[1..][..k - 1] == b[1..][..k - 1]
      {
        assert a[..k] == [a[0]] + a[1..][..k - 1] && b[..k] == [b[0]] + b[1..][..k - 1];
      }
      if k :| 0 <= k < |a[1..]| && k < |b[1..]| && a[1..][..k] == b[1..][..k] && a[1..][k] < b[1..][k] {
        assert a[..k + 1] == b[..k + 1] && a[k + 1] < b[k + 1];
      }
      if k :| 0 <= k < |a| && k < |b| && a[..k] == b[..k] && a[k] < b[k] {
        assert k > 0;
        assert a[1..][..k - 1] == b[1..][..k - 1] && a[1..][k - 1] < b[1..][k - 1];
      }
    } else if a != "" && b != "" {
      assert a[..0] == b[..0];
      assert forall k :: 0 < k < |a| && k < |b| ==> a[..k][0] != b[..k][0];
    }
  }

  /** ORDER BY name over a primary key, and sort.Strings over the entries of a directory. */
  ghost predicate Listing(values: seq<string>) {
    "" !in values && forall i, j :: 0 <= i < j < |values| ==> Less(values[i], values[j])
  }

  // ---------------------------------------------------------------- one page

  datatype Page = Page(items: seq<string>, next: Option<(string, string)>)

  /** The cursor lets a name through. */
  predicate Passes(last: string, value: string) {
    last == "" || Less(last, value)
  }

  function After(values: seq<string>, last: string): (r: seq<string>)
    ensures |r| <= |values|
  {
    if values == [] then []
    else After(values[..|values| - 1], last)
         + if Passes(last, values[|values| - 1]) then [values[|values| - 1]] else []
  }

  /** The page after a cursor and, when more follows, the query of the next link. */
  function PageOf(values: seq<string>, last: string, limit: nat): Page {
    var rest := After(values, last);
    if limit > 0 && |rest| > limit then Page(rest[..limit], Some((rest[limit - 1], Decimal(limit)))) else Page(rest, None)
  }

  /** parseNonNegativeInt, and the check of the catalog. */
  function PageLimit(raw: string): Option<nat> {
    if raw == "" then Some(0)
    else match ParseInt(raw)
         case Some(n) => if n >= 0 then Some(n) else None
         case None => None
  }

  /** pageStrings: one name more than the page, to tell whether there is another. */
  method PageStrings(values: seq<string>, last: string, limit: nat) returns (paged: seq<string>)
    ensures
      var rest := After(values, last);
      paged == if limit > 0 && |rest| > limit then rest[..limit + 1] else rest
  {
    paged := [];
    for i := 0 to |values|
      invariant paged == After(values[..i], last)
    {
      assert values[..i + 1][..i] == values[..i];
      if last != "" && !Less(last, values[i]) {
        continue;
      }
      paged := paged + [values[i]];
    }
    assert values[..|values|] == values;
    if limit > 0 && |paged| > limit {
      return paged[..limit + 1];
    }
  }

  /** handleTags */
  method ListTags(tags: seq<string>, last: string, n: string) returns (r: Option<Page>)
    ensures r == match PageLimit(n) case Some(limit) => Some(PageOf(tags, last, limit)) case None => None
    ensures n == "" ==> r == Some(Page(After(tags, last), None))
  {
    var limit := PageLimit(n);
    if limit.None? {
      return None;
    }
    var paged := PageStrings(tags, last, limit.value);
    var next := None;
    ghost var rest := After(tags, last);
    assert limit.value < |rest| ==> rest[..limit.value + 1][..limit.value] == rest[..limit.value];
    if limit.value > 0 && |paged| > limit.value {
      next := Some((paged[limit.value - 1], Decimal(limit.value)));
      paged := paged[..limit.value];
    }
    return Some(Page(paged, next));
  }

  /** handleCatalog: its own loop over the rows, to the same specification. */
  method ListCatalog(rows: seq<string>, last: string, n: string) returns (r: Option<Page>)
    ensures r == match PageLimit(n) case Some(limit) => Some(PageOf(rows, last, limit)) case None => None
    ensures n == "" ==> r == Some(Page(After(rows, last), None))
  {
    var limit := PageLimit(n);
    if limit.None? {
      return None;
    }
    var names: seq<string> := [];
    for i := 0 to |rows|
      invariant names == After(rows[..i], last)
    {
      assert rows[..i + 1][..i] == rows[..i];
      if last != "" && !Less(last, rows[i]) {
        continue;
      }
      names := names + [rows[i]];
    }
    assert rows[..|rows|] == rows;
    var next := None;
    if limit.value > 0 && |names| > limit.value {
      next := Some((names[limit.value - 1], Decimal(limit.value)));
      names := names[..limit.value];
    }
    return Some(Page(names, next));
  }

  /** The limits a request can ask for: none, which is no limit, or a number that is not negative. */
  lemma LimitsExactly(raw: string, limit: nat)
    ensures PageLimit("") == Some(0)
    ensures raw != "" ==> (PageLimit(raw) == Some(limit) <==> Numeral(raw, limit) && limit <= 0x7FFF_FFFF_FFFF_FFFF)
  {
    IntegersExactly(raw, limit);
    hide ParseInt;
  }

  /** A request without a limit, or with the limit 0, gets everything past its cursor at once and no link. */
  lemma {:induction false} NoLimitNoLink(values: seq<string>, last: string)
    ensures PageOf(values, last, 0) == Page(After(values, last), None)
    ensures PageOf(values, "", 0) == Page(values, None)
  {
    AfterNothing(values);
  }

  /** A next link asks for pages of the same size. */
  lemma {:induction false} LinkKeepsLimit(limit: nat)
    requires 0 < limit <= MAX_INT64
    ensures PageLimit(Decimal(limit)) == Some(limit)
  {
    ParseDecimal(limit);
  }

  // ---------------------------------------------------------------- following the links

  /** What passes the cursor, in order. */
  lemma {:induction false} AfterMeans(values: seq<string>, last: string)
    requires Listing(values)
    ensures Listing(After(values, last))
    ensures forall v :: v in After(values, last) <==> v in values && Passes(last, v)
  {
    if values != [] {
      var front := values[..|values| - 1];
      AfterMeans(front, last);
      assert values == front + [values[|values| - 1]];
      var kept := After(front, last);
      forall i | 0 <= i < |kept| ensures Less(kept[i], values[|values| - 1]) {
        assert kept[i] in kept;
        var j :| 0 <= j < |front| && front[j] == kept[i];
        assert values[j] == kept[i];
      }
    }
  }

  /** Past the name at position i - 1 come exactly the names from position i on. */
  lemma {:induction false} AfterName(values: seq<string>, i: nat, n: nat)
    requires Listing(values) && 0 < i <= n <= |values|
    ensures After(values[..n], values[i - 1]) == values[i..n]
    decreases n
  {
    if n == i {
      NothingBefore(values, i, n);
    } else {
      AfterName(values, i, n - 1);
      assert values[..n][..n - 1] == values[..n - 1];
      assert values[i - 1] in values;
    }
  }

  lemma {:induction false} NothingBefore(values: seq<string>, i: nat, n: nat)
    requires Listing(values) && 0 < i && n <= i <= |values|
    ensures After(values[..n], values[i - 1]) == []
    decreases n
  {
    if n > 0 {
      NothingBefore(values, i, n - 1);
      assert values[..n][..n - 1] == values[..n - 1];
      assert values[i - 1] in values;
      LessIsTotal(values[n - 1], values[i - 1]);
    }
  }

  lemma {:induction false} AfterNothing(values: seq<string>)
    ensures After(values, "") == values
  {
    if values != [] {
      AfterNothing(values[..|values| - 1]);
    }
  }

  /** The cursor stands before position i: names from there on are what is left. */
  ghost predicate StandsAt(values: seq<string>, last: string, i: nat) {
    i <= |values| && (if i == 0 then last == "" else last == values[i - 1])
  }

  lemma {:induction false} AfterCursor(values: seq<string>, last: string, i: nat)
    requires Listing(values) && StandsAt(values, last, i)
    ensures After(values, last) == values[i..]
  {
    if i == 0 {
      AfterNothing(values);
    } else {
      AfterName(values, i, |values|);
      assert values[..|values|] == values;
    }
  }

  /** The pages a client gets by following the next links over a set that does not change. */
  function Pages(values: seq<string>, last: string, limit: nat, fuel: nat): seq<seq<string>>
    decreases fuel
  {
    var page := PageOf(values, last, limit);
    if page.next.None? || fuel == 0 then [page.items]
    else [page.items] + Pages(values, page.next.value.0, limit, fuel - 1)
  }

  function Flatten(pages: seq<seq<string>>): seq<string> {
    if pages == [] then [] else pages[0] + Flatten(pages[1..])
  }

  ghost predicate FullButLast(pages: seq<seq<string>>, limit: nat) {
    forall k :: 0 <= k < |pages| - 1 ==> |pages[k]| == limit
  }

  /** How many pages n names take. */
  function PageCount(n: nat, limit: nat): (count: nat)
    requires limit > 0
    ensures count > 0
  {
    if n <= limit then 1 else 1 + PageCount(n - limit, limit)
  }

  /** It is n divided by the page size, rounded up. */
  lemma {:induction false} PageCountIsCeiling(n: nat, limit: nat)
    requires limit > 0
    ensures n <= PageCount(n, limit) * limit
    ensures n > 0 ==> (PageCount(n, limit) - 1) * limit < n
  {
    if n > limit {
      PageCountIsCeiling(n - limit, limit);
      var count := PageCount(n - limit, limit);
      assert (1 + count) * limit == limit + count * limit && count * limit == (count - 1) * limit + limit;
    }
  }

  lemma {:induction false} PagesFrom(values: seq<string>, last: string, limit: nat, fuel: nat, i: nat)
    requires Listing(values) && StandsAt(values, last, i) && limit > 0 && |values| - i <= fuel
    ensures
      var pages := Pages(values, last, limit, fuel);
      && Flatten(pages) == values[i..] && |pages| == PageCount(|values| - i, limit)
      && FullButLast(pages, limit)
    decreases fuel
  {
    hide Pages;
    hide Listing;
    hide Flatten;
    hide FullButLast;
    PagesUnfold(values, last, limit, fuel, i);
    OnePageOnly(values[i..], limit);
    if |values| - i > limit {
      var cursor := values[i + limit - 1];
      PagesFrom(values, cursor, limit, fuel - 1, i + limit);
      assert values[i..][limit..] == values[i + limit..];
      OnePageMore(values[i..], limit, Pages(values, cursor, limit, fuel - 1));
    }
  }

  lemma {:induction false} PagesUnfold(values: seq<string>, last: string, limit: nat, fuel: nat, i: nat)
    requires Listing(values) && StandsAt(values, last, i) && limit > 0 && |values| - i <= fuel
    ensures Pages(values, last, limit, fuel) ==
            if |values| - i > limit
            then [values[i..][..limit]] + Pages(values, values[i + limit - 1], limit, fuel - 1)
            else [values[i..]]
  {
    AfterCursor(values, last, i);
    assert |values| - i > limit ==> values[i..][limit - 1] == values[i + limit - 1];
    hide After;
    hide Listing;
  }

  lemma OnePageOnly(values: seq<string>, limit: nat)
    ensures Flatten([values]) == values && FullButLast([values], limit)
  {
    assert [values][1..] == [];
  }

  lemma {:induction false} OnePageMore(values: seq<string>, limit: nat, rest: seq<seq<string>>)
    requires 0 < limit < |values| && Flatten(rest) == values[limit..]
    requires FullButLast(rest, limit)
    ensures
      var pages := [values[..limit]] + rest;
      Flatten(pages) == values && FullButLast(pages, limit)
  {
    var pages := [values[..limit]] + rest;
    assert pages[1..] == rest;
    assert values == values[..limit] + values[limit..];
    forall k | 0 <= k < |pages| - 1 ensures |pages[k]| == limit {
      assert k > 0 ==> pages[k] == rest[k - 1];
    }
  }

  /**
   Pagination is complete: for any positive page size, following the next links over a set that stays the same
   ends after as many pages as the names fill, and the pages together are the whole sorted list.
   */
  lemma {:induction false} FollowingLinksIsComplete(values: seq<string>, limit: nat, fuel: nat)
    requires Listing(values) && limit > 0 && fuel >= |values|
    ensures
      var pages := Pages(values, "", limit, fuel);
      && Flatten(pages) == values
      && (|pages| - 1) * limit <= |values| <= |pages| * limit
      && (if values == [] then |pages| == 1 else (|pages| - 1) * limit < |values|)
      && FullButLast(pages, limit)
  {
    PagesFrom(values, "", limit, fuel, 0);
    PageCountIsCeiling(|values|, limit);
  }

  // ---------------------------------------------------------------- while the set changes

  /** The names a client has been given when the k-th request finds the k-th listing, and whether it has finished. */
  function Walk(listings: seq<seq<string>>, last: string, limit: nat): (seq<string>, bool)
    decreases |listings|
  {
    if listings == [] then ([], false)
    else
      var page := PageOf(listings[0], last, limit);
      if page.next.None? then (page.items, true)
      else
        var (rest, finished) := Walk(listings[1..], page.next.value.0, limit);
        (page.items + rest, finished)
  }

  lemma PageMeans(values: seq<string>, last: string, limit: nat)
    requires Listing(values)
    ensures
      var page := PageOf(values, last, limit);
      && Listing(page.items)
      && (forall v :: v in page.items ==> v in values && Passes(last, v))
      && (page.next.None? ==> forall v :: v in values && Passes(last, v) ==> v in page.items)
      && (page.next.Some? ==>
            var cursor := page.next.value.0;
            && page.items != [] && cursor == page.items[|page.items| - 1] && cursor != ""
            && forall v :: v in values && Passes(last, v) ==> v in page.items || Less(cursor, v))
  {
    AfterMeans(values, last);
    var rest := After(values, last);
    if limit > 0 && |rest| > limit {
      assert rest[limit - 1] in rest;
      forall v | v in rest ensures v in rest[..limit] || Less(rest[limit - 1], v) {
        var i :| 0 <= i < |rest| && rest[i] == v;
        assert i < limit ==> rest[..limit][i] == v;
      }
    }
  }

  /**
   If the set changes between the pages: names only ever go up, so none repeats, and once the walk has ended every
   name that was there at every request has been listed.
   */
  lemma {:induction false} WalkOverChangingSet(listings: seq<seq<string>>, last: string, limit: nat)
    requires forall k :: 0 <= k < |listings| ==> Listing(listings[k])
    ensures
      var (names, finished) := Walk(listings, last, limit);
      && Listing(names)
      && (forall v :: v in names ==> Passes(last, v))
      && (finished ==> forall v :: (forall k :: 0 <= k < |listings| ==> v in listings[k]) && Passes(last, v) ==> v in names)
    decreases |listings|
  {
    if listings != [] {
      PageMeans(listings[0], last, limit);
      var page := PageOf(listings[0], last, limit);
      if page.next.Some? {
        var cursor := page.next.value.0;
        WalkOverChangingSet(listings[1..], cursor, limit);
        var (rest, finished) := Walk(listings[1..], cursor, limit);
        JoinListings(page.items, rest, last);
        hide Listing;
        forall v | finished && (forall k :: 0 <= k < |listings| ==> v in listings[k]) && Passes(last, v)
          ensures v in page.items + rest
        {
          assert v in listings[0];
          assert forall k :: 0 <= k < |listings| - 1 ==> listings[1..][k] == listings[k + 1];
        }
      } else {
        assert forall v :: (forall k :: 0 <= k < |listings| ==> v in listings[k]) ==> v in listings[0];
      }
    }
  }

  /** A listing followed by one past its last name. */
  lemma JoinListings(a: seq<string>, b: seq<string>, last: string)
    requires Listing(a) && Listing(b) && a != []
    requires forall v :: v in a ==> Passes(last, v)
    requires forall v :: v in b ==> Less(a[|a| - 1], v)
    ensures Listing(a + b) && forall v :: v in a + b ==> Passes(last, v)
  {
    var top := a[|a| - 1];
    assert top in a;
    forall v | v in b ensures Passes(last, v) {
      if last != "" {
        LessIsTransitive(last, top, v);
      }
    }
    forall i, j | 0 <= i < j < |a + b| ensures Less((a + b)[i], (a + b)[j]) {
      hide Less;
      if i < |a| <= j {
        assert b[j - |a|] in b;
        if i < |a| - 1 {
          LessIsTransitive(a[i], top, b[j - |a|]);
        }
      }
    }
  }
}
