/** Listing an account's modules or resources page by page. */
module Pagination {
  import opened Options
  import opened KeyOrder

  /** A state key under an account: its path, which starts with the variant, and whether the rest parses. */
  datatype Key = Key(path: Bytes, parses: bool)

  const CodeVariant := 0
  const ResourceVariant := 1
  const ResourceGroupVariant := 2

  predicate Malformed(k: Key) {
    !k.parses || k.path == [] || k.path[0] > ResourceGroupVariant
  }

  predicate Of(k: Key, variant: nat) {
    !Malformed(k) && k.path[0] == variant
  }

  /** Storage iterates in the order of the keys' bytes. */
  ghost predicate Sorted(keys: seq<Key>) {
    forall i, j :: 0 <= i < j < |keys| ==> Before(keys[i].path, keys[j].path)
  }

  datatype Listing = Modules | Resources {
    /** A key takes a place on a page if it is of the right kind, or does not parse and fails the page. */
    predicate Lists(k: Key) {
      || Malformed(k)
      || match this
         case Modules => Of(k, CodeVariant)
         case Resources => Of(k, ResourceVariant) || Of(k, ResourceGroupVariant)
    }

    /** The cursor made from the first key not on the page. For resources it is a resource path, whether
        the key is a resource or a resource group. */
    function Cursor(k: Key): (c: Bytes)
      ensures k.path != [] ==> |c| == |k.path| && c[1..] == k.path[1..]
    {
      [if this.Modules? then CodeVariant else ResourceVariant] + if k.path == [] then [] else k.path[1..]
    }
  }

  /** The keys from the cursor on. */
  function Seek(keys: seq<Key>, cursor: Option<Bytes>): (r: seq<Key>)
    ensures |r| <= |keys|
  {
    if keys == [] || cursor.None? || !Before(keys[0].path, cursor.value) then keys else Seek(keys[1..], cursor)
  }

  function Select(l: Listing, keys: seq<Key>): seq<Key> {
    if keys == [] then [] else (if l.Lists(keys[0]) then [keys[0]] else []) + Select(l, keys[1..])
  }

  predicate Clean(keys: seq<Key>) {
    forall k :: k in keys ==> !Malformed(k)
  }

  function Min(a: nat, b: nat): nat { if a < b then a else b }

  datatype Page = Page(keys: seq<Key>, next: Option<Bytes>)

  /** The page cut from the listed keys that are left: up to `limit` of them and a cursor if there is another. */
  function Cut(l: Listing, rest: seq<Key>, limit: nat): Result<Page, string> {
    if !Clean(rest[..Min(limit + 1, |rest|)]) then Err("unparsable path") else
    Ok(Page(rest[..Min(limit, |rest|)], if |rest| > limit then Some(l.Cursor(rest[limit])) else None))
  }

  /** One page of an account's keys. */
  function GetPage(l: Listing, keys: seq<Key>, cursor: Option<Bytes>, limit: nat): Result<Page, string> {
    Cut(l, Select(l, Seek(keys, cursor)), limit)
  }

  /** A client that follows the cursors: the keys received so far and where the next page starts. */
  datatype Walk = Walking(received: seq<Key>, cursor: Option<Bytes>) | Done(received: seq<Key>) | Failed

  function Receive(received: seq<Key>, r: Result<Page, string>): Walk {
    match r
    case Err(_) => Failed
    case Ok(page) => if page.next.Some? then Walking(received + page.keys, page.next) else Done(received + page.keys)
  }

  function Follow(l: Listing, keys: seq<Key>, limit: nat, pages: nat): Walk {
    if pages == 0 then Walking([], None) else
    var before := Follow(l, keys, limit, pages - 1);
    if before.Walking? then Receive(before.received, GetPage(l, keys, before.cursor, limit)) else before
  }

  /** Keys due after a number of full pages. */
  function Due(limit: nat, pages: nat): nat {
    if pages == 0 then 0 else Due(limit, pages - 1) + limit
  }

  /** What a client should have after `pages` pages of the listed keys. */
  function Expected(l: Listing, listed: seq<Key>, limit: nat, pages: nat): Walk {
    var due := Due(limit, pages);
    if pages == 0 then Walking([], None)
    else if !Clean(listed[..Min(due + 1, |listed|)]) then Failed
    else if due >= |listed| then Done(listed)
    else Walking(listed[..due], Some(l.Cursor(listed[due])))
  }

  // ----- Where cursors lead -----

  /** Seeking the cursor made from the key at `p` finds that key again. */
  ghost predicate Finds(l: Listing, listed: seq<Key>, p: nat)
    requires p < |listed|
  {
    || l.Cursor(listed[p]) == listed[p].path
    || p == 0
    || Before(listed[p - 1].path, l.Cursor(listed[p]))
  }

  /** Where seeking a cursor leads to. */
  function Landing(listed: seq<Key>, cursor: Bytes): nat {
    |listed| - |Seek(listed, Some(cursor))|
  }

  /** `k` lies between a resource group and the resource path with the tag of that group: it is as long, and a
      resource with a tag not below the group's or a group with a tag below it. */
  predicate Between(k: Key, group: Key) {
    && |k.path| == |group.path| > 0
    && var (tag, groupTag) := (k.path[1..], group.path[1..]);
       || (k.path[0] == ResourceVariant && !LexLess(tag, groupTag))
       || (k.path[0] == ResourceGroupVariant && LexLess(tag, groupTag))
  }

  /** The boundary after `pages` pages, if a client gets there, falls on a key that its cursor finds; or else
      the page that the cursor leads to fails on a key that does not parse, as the right page would. */
  ghost predicate BoundaryFound(l: Listing, listed: seq<Key>, limit: nat, pages: nat) {
    pages > 0 && Expected(l, listed, limit, pages).Walking? ==>
      var due := Due(limit, pages);
      || Finds(l, listed, due)
      || !Clean(listed[..Min(Landing(listed, l.Cursor(listed[due])) + limit + 1, |listed|)])
  }

  ghost predicate BoundariesFound(l: Listing, listed: seq<Key>, limit: nat) {
    forall pages: nat :: BoundaryFound(l, listed, limit, pages)
  }

  lemma {:induction false} SeekFacts(keys: seq<Key>, c: Option<Bytes>)
    requires Sorted(keys)
    ensures Seek(keys, c) == keys[|keys| - |Seek(keys, c)|..]
    ensures c.None? ==> Seek(keys, c) == keys
    ensures c.Some? ==>
              forall i :: 0 <= i < |keys| ==> (Before(keys[i].path, c.value) <==> i < |keys| - |Seek(keys, c)|)
  {
    hide Before;
    if keys == [] || c.None? {
    } else if Before(keys[0].path, c.value) {
      SeekFacts(keys[1..], c);
      forall i | 0 <= i < |keys|
        ensures Before(keys[i].path, c.value) <==> i < |keys| - |Seek(keys, c)|
      {
        assert i > 0 ==> keys[i] == keys[1..][i - 1];
      }
    } else {
      forall i | 0 < i < |keys|
        ensures !Before(keys[i].path, c.value)
      {
        if Before(keys[i].path, c.value) { BeforeTransitive(keys[0].path, keys[i].path, c.value); }
      }
    }
  }

  lemma {:induction false} SelectSorted(l: Listing, keys: seq<Key>)
    requires Sorted(keys)
    ensures Sorted(Select(l, keys))
    ensures forall k :: k in Select(l, keys) <==> k in keys && l.Lists(k)
  {
    hide Before, Malformed, Listing.Lists;
    if keys != [] {
      SelectSorted(l, keys[1..]);
      assert keys == [keys[0]] + keys[1..];
      var rest := Select(l, keys[1..]);
      assert forall k :: k in keys[1..] ==> Before(keys[0].path, k.path);
      assert forall i :: 0 <= i < |rest| ==> rest[i] in keys[1..];
    }
  }

  /** Selecting and seeking commute. */
  lemma {:induction false} SelectSeek(l: Listing, keys: seq<Key>, c: Option<Bytes>)
    requires Sorted(keys)
    ensures Select(l, Seek(keys, c)) == Seek(Select(l, keys), c)
  {
    hide Before;
    if keys == [] || c.None? {
    } else if Before(keys[0].path, c.value) {
      SelectSeek(l, keys[1..], c);
      if l.Lists(keys[0]) {
        assert Select(l, keys)[1..] == Select(l, keys[1..]);
      } else {
        assert Select(l, keys) == Select(l, keys[1..]);
      }
    } else {
      SelectSorted(l, keys);
      var s := Select(l, keys);
      if s != [] {
        assert s[0] in keys;
        assert keys == [keys[0]] + keys[1..];
        if Before(s[0].path, c.value) { BeforeTransitive(keys[0].path, s[0].path, c.value); }
      }
    }
  }

  /** A cursor is the path it was made from, or comes before it. */
  lemma CursorNotAfter(l: Listing, k: Key)
    requires l.Lists(k) && !Malformed(k)
    ensures !Before(k.path, l.Cursor(k))
  {
    var c := l.Cursor(k);
    assert k.path == [k.path[0]] + k.path[1..] && c == [c[0]] + c[1..];
    BeforeByLength(k.path, c);
    LexIrreflexive(k.path[1..]);
  }

  /** The cursor made from the key at `p` never skips a key, and finds that key again exactly when `Finds`. */
  lemma CursorLands(l: Listing, listed: seq<Key>, p: nat)
    requires Sorted(listed) && p < |listed| && l.Lists(listed[p]) && !Malformed(listed[p])
    ensures Landing(listed, l.Cursor(listed[p])) <= p
    ensures Finds(l, listed, p) <==> Seek(listed, Some(l.Cursor(listed[p]))) == listed[p..]
  {
    hide Before, Seek, Sorted, Landing, Listing.Cursor;
    var c := l.Cursor(listed[p]);
    CursorNotAfter(l, listed[p]);
    Neighbours(listed, p);
    LandingAt(listed, c, p);
    if p > 0 { LandingAt(listed, c, p - 1); }
    SameTail(listed, Landing(listed, c), p);
  }

  lemma LandingAt(listed: seq<Key>, c: Bytes, i: nat)
    requires Sorted(listed) && i < |listed|
    ensures Before(listed[i].path, c) <==> i < Landing(listed, c)
    ensures Landing(listed, c) <= |listed| && Seek(listed, Some(c)) == listed[Landing(listed, c)..]
  {
    hide Before, Sorted, Seek;
    SeekFacts(listed, Some(c));
  }

  lemma SameTail(keys: seq<Key>, q: nat, p: nat)
    requires q <= |keys| && p <= |keys|
    ensures keys[q..] == keys[p..] <==> q == p
  {
    assert |keys[q..]| == |keys| - q && |keys[p..]| == |keys| - p;
  }

  lemma Neighbours(listed: seq<Key>, p: nat)
    requires Sorted(listed) && p < |listed|
    ensures p > 0 ==> Before(listed[p - 1].path, listed[p].path)
  {
  }

  lemma TailSame(v: Byte, w: Byte, a: Bytes, b: Bytes)
    ensures LexLess([v] + a, [w] + b) <==> v < w || (v == w && LexLess(a, b))
  {
    assert ([v] + a)[1..] == a && ([w] + b)[1..] == b;
  }

  /** Of the keys before a resource group, exactly those between the group and its cursor are not before the cursor. */
  lemma BetweenBlocks(k: Key, group: Key)
    requires Of(group, ResourceGroupVariant) && Before(k.path, group.path)
    ensures !Before(k.path, Resources.Cursor(group)) <==> Between(k, group)
  {
    var c := Resources.Cursor(group);
    BeforeByLength(k.path, group.path);
    BeforeByLength(k.path, c);
    if |k.path| == |group.path| {
      assert k.path == [k.path[0]] + k.path[1..] && group.path == [group.path[0]] + group.path[1..];
      TailSame(k.path[0], c[0], k.path[1..], c[1..]);
      TailSame(k.path[0], group.path[0], k.path[1..], group.path[1..]);
    }
  }

  /** A resource's cursor always finds it; a group's exactly if no key before it lies between the two. */
  lemma FindsIff(listed: seq<Key>, p: nat)
    requires Sorted(listed) && p < |listed| && Resources.Lists(listed[p]) && !Malformed(listed[p])
    ensures Finds(Resources, listed, p) <==>
              Of(listed[p], ResourceVariant) || forall q :: 0 <= q < p ==> !Between(listed[q], listed[p])
  {
    var c, path := Resources.Cursor(listed[p]), listed[p].path;
    assert path == [path[0]] + path[1..];
    if path[0] == ResourceGroupVariant {
      hide Before, Between;
      forall q | 0 <= q < p
        ensures !Before(listed[q].path, c) <==> Between(listed[q], listed[p])
      {
        BetweenBlocks(listed[q], listed[p]);
      }
      SeekFacts(listed, Some(c));
    }
  }

  // ----- Pages cut at the right places -----

  lemma CleanSplit(keys: seq<Key>, p: nat, q: nat)
    requires p <= q <= |keys|
    ensures Clean(keys[..q]) <==> Clean(keys[..p]) && Clean(keys[p..][..q - p])
  {
    assert keys[..q] == keys[..p] + keys[p..][..q - p];
  }

  /** Cutting a page at the right place extends what is expected by one page. */
  lemma CutExpected(l: Listing, listed: seq<Key>, limit: nat, pages: nat)
    requires limit >= 1 && Expected(l, listed, limit, pages).Walking? && Due(limit, pages) <= |listed|
    ensures Receive(Expected(l, listed, limit, pages).received, Cut(l, listed[Due(limit, pages)..], limit))
            == Expected(l, listed, limit, pages + 1)
  {
    hide Clean;
    var due, rest := Due(limit, pages), listed[Due(limit, pages)..];
    var end := Min(due + limit + 1, |listed|);
    assert Due(limit, pages + 1) == due + limit;
    CleanPrefix(l, listed, limit, pages);
    CleanSplit(listed, due, end);
    assert rest[..Min(limit + 1, |rest|)] == listed[due..][..end - due];
    if |rest| > limit {
      assert rest[limit] == listed[due + limit];
      assert listed[..due] + rest[..limit] == listed[..due + limit];
    } else {
      assert rest[..|rest|] == rest && listed[..due] + rest == listed;
    }
  }

  /** What a client still walking has received parses. */
  lemma CleanPrefix(l: Listing, listed: seq<Key>, limit: nat, pages: nat)
    requires Expected(l, listed, limit, pages).Walking? && Due(limit, pages) <= |listed|
    ensures Clean(listed[..Due(limit, pages)])
    ensures Expected(l, listed, limit, pages).received == listed[..Due(limit, pages)]
  {
    var due := Due(limit, pages);
    CleanSplit(listed, due, Min(due + 1, |listed|));
    EmptyClean(listed);
  }

  /** A page cut too early fails where the right one does, if it meets a key that does not parse. */
  lemma EarlyCutFails(l: Listing, listed: seq<Key>, limit: nat, pages: nat, q: nat)
    requires pages > 0 && Expected(l, listed, limit, pages).Walking? && q <= Due(limit, pages) <= |listed|
    requires !Clean(listed[..Min(q + limit + 1, |listed|)])
    ensures Cut(l, listed[q..], limit).Err? && Expected(l, listed, limit, pages + 1) == Failed
  {
    hide Clean;
    var due, end := Due(limit, pages), Min(q + limit + 1, |listed|);
    CleanPrefix(l, listed, limit, pages);
    CleanSplit(listed, q, due);
    CleanSplit(listed, q, end);
    CleanSplit(listed, end, Min(due + limit + 1, |listed|));
    assert listed[q..][..Min(limit + 1, |listed| - q)] == listed[q..][..end - q];
  }

  /** One more page takes a client from what is expected to what is expected. */
  lemma NextExpected(l: Listing, keys: seq<Key>, limit: nat, pages: nat)
    requires Sorted(keys) && limit >= 1
    requires Follow(l, keys, limit, pages) == Expected(l, Select(l, keys), limit, pages)
    requires BoundaryFound(l, Select(l, keys), limit, pages)
    ensures Follow(l, keys, limit, pages + 1) == Expected(l, Select(l, keys), limit, pages + 1)
  {
    hide Select, Seek, Finds, Sorted, Cut, Clean, Before;
    var listed, due, before := Select(l, keys), Due(limit, pages), Follow(l, keys, limit, pages);
    if before.Walking? {
      StartsAt(l, keys, limit, pages);
      SelectSeek(l, keys, before.cursor);
      if pages == 0 || Finds(l, listed, due) {
        CutExpected(l, listed, limit, pages);
      } else {
        EarlyCutFails(l, listed, limit, pages, Landing(listed, l.Cursor(listed[due])));
      }
    } else {
      FinishedStays(l, listed, limit, pages);
    }
  }

  lemma FinishedStays(l: Listing, listed: seq<Key>, limit: nat, pages: nat)
    requires !Expected(l, listed, limit, pages).Walking?
    ensures Expected(l, listed, limit, pages + 1) == Expected(l, listed, limit, pages)
  {
    hide Clean;
    var due := Due(limit, pages);
    CleanSplit(listed, Min(due + 1, |listed|), Min(due + limit + 1, |listed|));
  }

  lemma EmptyClean(keys: seq<Key>)
    ensures Clean(keys[..0])
  {
  }

  /** Where a client that has what is expected resumes. */
  lemma StartsAt(l: Listing, keys: seq<Key>, limit: nat, pages: nat)
    requires Sorted(keys) && Expected(l, Select(l, keys), limit, pages).Walking?
    ensures var listed, due := Select(l, keys), Due(limit, pages);
            && due <= |listed|
            && var rest := Seek(listed, Expected(l, listed, limit, pages).cursor);
               && (pages == 0 ==> rest == listed[due..])
               && (pages > 0 ==>
                     && due < |listed| && (Finds(l, listed, due) <==> rest == listed[due..])
                     && var q := Landing(listed, l.Cursor(listed[due])); q <= due && rest == listed[q..])
  {
    hide Before, Seek, Finds, Sorted;
    var listed, due := Select(l, keys), Due(limit, pages);
    SelectSorted(l, keys);
    SeekFacts(listed, Expected(l, listed, limit, pages).cursor);
    if pages > 0 {
      assert listed[due] in listed[..Min(due + 1, |listed|)];
      CursorLands(l, listed, due);
    }
  }

  /** When every boundary is found, any number of pages gives exactly the listed keys, each once and in
      order, fails exactly at the page that meets a key that does not parse, and ends when all are seen. */
  lemma {:induction false} FollowIsExpected(l: Listing, keys: seq<Key>, limit: nat, pages: nat)
    requires Sorted(keys) && limit >= 1 && BoundariesFound(l, Select(l, keys), limit)
    ensures Follow(l, keys, limit, pages) == Expected(l, Select(l, keys), limit, pages)
  {
    hide Select, Sorted, BoundaryFound, GetPage, Clean, Receive;
    if pages > 0 {
      FollowIsExpected(l, keys, limit, pages - 1);
      NextExpected(l, keys, limit, pages - 1);
      hide Follow, Expected;
    }
  }

  /** Module pages are always exact. */
  lemma ModulePagesExact(keys: seq<Key>, limit: nat, pages: nat)
    requires Sorted(keys) && limit >= 1
    ensures Follow(Modules, keys, limit, pages) == Expected(Modules, Select(Modules, keys), limit, pages)
  {
    SelectSorted(Modules, keys);
    SameVariantFound(Modules, Select(Modules, keys), limit);
    FollowIsExpected(Modules, keys, limit, pages);
  }

  /** Resource pages are exact for an account without resource groups. */
  lemma ResourcePagesExactWithoutGroups(keys: seq<Key>, limit: nat, pages: nat)
    requires Sorted(keys) && limit >= 1 && forall k :: k in keys ==> !Of(k, ResourceGroupVariant)
    ensures Follow(Resources, keys, limit, pages) == Expected(Resources, Select(Resources, keys), limit, pages)
  {
    SelectSorted(Resources, keys);
    SameVariantFound(Resources, Select(Resources, keys), limit);
    FollowIsExpected(Resources, keys, limit, pages);
  }

  /** If all keys that parse are of the variant cursors are made with, every boundary is found. */
  lemma SameVariantFound(l: Listing, listed: seq<Key>, limit: nat)
    requires forall k :: k in listed ==> Malformed(k) || k.path[0] == l.Cursor(k)[0]
    ensures BoundariesFound(l, listed, limit)
  {
    forall pages: nat
      ensures BoundaryFound(l, listed, limit, pages)
    {
      if pages > 0 && Expected(l, listed, limit, pages).Walking? {
        var due := Due(limit, pages);
        var k := listed[due];
        assert k in listed[..Min(due + 1, |listed|)] && k in listed;
        assert k.path == [k.path[0]] + k.path[1..];
      }
    }
  }

  // ----- What a client ends up with, key by key -----

  lemma {:induction false} DueIs(limit: nat, pages: nat)
    ensures Due(limit, pages) == limit * pages
  {
    if pages > 0 { DueIs(limit, pages - 1); }
  }

  lemma {:induction false} SelectShorter(l: Listing, keys: seq<Key>)
    ensures |Select(l, keys)| <= |keys|
  {
    if keys != [] { SelectShorter(l, keys[1..]); }
  }

  /** The path of a key is that of a module, a resource or a resource group, by its first byte, and parses. */
  predicate WellFormed(k: Key) {
    k.parses && k.path != [] && k.path[0] <= 2
  }

  /** The variants a listing is asked for. */
  ghost predicate Wanted(l: Listing, k: Key) {
    k.path != [] && if l.Modules? then k.path[0] == 0 else k.path[0] == 1 || k.path[0] == 2
  }

  /** What a listing consists of. */
  lemma ListedKeys(l: Listing, keys: seq<Key>, k: Key)
    requires Sorted(keys)
    ensures k in Select(l, keys) <==> k in keys && (!WellFormed(k) || Wanted(l, k))
    ensures !Malformed(k) <==> WellFormed(k)
  {
    SelectSorted(l, keys);
  }

  /** The keys received are exactly the wanted ones, in the order of storage, each once. */
  ghost predicate Complete(l: Listing, keys: seq<Key>, received: seq<Key>) {
    && (forall i, j :: 0 <= i < j < |received| ==> Before(received[i].path, received[j].path))
    && (forall i, j :: 0 <= i < j < |received| ==> received[i] != received[j])
    && (forall k :: k in received <==> k in keys && Wanted(l, k))
  }

  /** Enough pages, with every boundary found: if all keys under the account are well-formed, the client is done and
      has all wanted keys; if some key is not, it has failed. */
  lemma EnoughPages(l: Listing, keys: seq<Key>, limit: nat, pages: nat)
    requires Sorted(keys) && limit >= 1 && pages >= 1 && limit * pages >= |keys|
    requires BoundariesFound(l, Select(l, keys), limit)
    ensures var w := Follow(l, keys, limit, pages);
            if forall k :: k in keys ==> WellFormed(k) then w.Done? && Complete(l, keys, w.received) else w.Failed?
  {
    hide Select, Follow, BoundariesFound, Before;
    var listed := Select(l, keys);
    FollowIsExpected(l, keys, limit, pages);
    DueIs(limit, pages);
    SelectShorter(l, keys);
    SelectSorted(l, keys);
    assert listed[..Min(Due(limit, pages) + 1, |listed|)] == listed;
    forall k ensures k in listed <==> k in keys && (!WellFormed(k) || Wanted(l, k)) { ListedKeys(l, keys, k); }
    forall i, j | 0 <= i < j < |listed| ensures listed[i] != listed[j] {
      BeforeAsymmetric(listed[i].path, listed[j].path);
    }
    CleanIff(l, keys, listed);
    hide Sorted, Clean, WellFormed, Wanted;
  }

  lemma CleanIff(l: Listing, keys: seq<Key>, listed: seq<Key>)
    requires forall k :: k in listed <==> k in keys && (!WellFormed(k) || Wanted(l, k))
    ensures Clean(listed) <==> forall k :: k in keys ==> WellFormed(k)
  {
    if k :| k in keys && !WellFormed(k) { assert k in listed && Malformed(k); }
  }

  /** A client that asks for enough module pages gets every module of the account once, in order; or it fails, exactly
      if some key under the account is not well-formed. */
  lemma AllModules(keys: seq<Key>, limit: nat, pages: nat)
    requires Sorted(keys) && limit >= 1 && pages >= 1 && limit * pages >= |keys|
    ensures var w := Follow(Modules, keys, limit, pages);
            if forall k :: k in keys ==> WellFormed(k) then
              && w.Done? && (forall k :: k in w.received <==> k in keys && k.path != [] && k.path[0] == 0)
              && (forall i, j :: 0 <= i < j < |w.received| ==> Before(w.received[i].path, w.received[j].path))
              && (forall i, j :: 0 <= i < j < |w.received| ==> w.received[i] != w.received[j])
            else w.Failed?
  {
    hide Follow, Before, Select;
    SelectSorted(Modules, keys);
    SameVariantFound(Modules, Select(Modules, keys), limit);
    EnoughPages(Modules, keys, limit, pages);
  }

  /** The same for the resources of an account without resource groups. */
  lemma AllResources(keys: seq<Key>, limit: nat, pages: nat)
    requires Sorted(keys) && limit >= 1 && pages >= 1 && limit * pages >= |keys|
    requires forall k :: k in keys && WellFormed(k) ==> k.path[0] != 2
    ensures var w := Follow(Resources, keys, limit, pages);
            if forall k :: k in keys ==> WellFormed(k) then
              && w.Done? && (forall k :: k in w.received <==> k in keys && k.path != [] && k.path[0] == 1)
              && (forall i, j :: 0 <= i < j < |w.received| ==> Before(w.received[i].path, w.received[j].path))
              && (forall i, j :: 0 <= i < j < |w.received| ==> w.received[i] != w.received[j])
            else w.Failed?
  {
    hide Follow, Before, Select;
    SelectSorted(Resources, keys);
    SameVariantFound(Resources, Select(Resources, keys), limit);
    EnoughPages(Resources, keys, limit, pages);
  }

  // ----- And when they are not -----

  /** A boundary that is not found makes the next page repeat a key. */
  lemma LostBoundaryRepeats(l: Listing, keys: seq<Key>, limit: nat, pages: nat)
    requires Sorted(keys) && limit >= 1
    requires Follow(l, keys, limit, pages) == Expected(l, Select(l, keys), limit, pages)
    requires !BoundaryFound(l, Select(l, keys), limit, pages)
    ensures Follow(l, keys, limit, pages + 1) != Expected(l, Select(l, keys), limit, pages + 1)
  {
    hide Select, Seek, Sorted, Finds, Clean, Cut, Receive, Before;
    var listed, due := Select(l, keys), Due(limit, pages);
    var before := Follow(l, keys, limit, pages);
    SelectSorted(l, keys);
    StartsAt(l, keys, limit, pages);
    SelectSeek(l, keys, before.cursor);
    RepeatsAt(l, listed, limit, pages, Landing(listed, l.Cursor(listed[due])));
  }

  lemma RepeatsAt(l: Listing, listed: seq<Key>, limit: nat, pages: nat, q: nat)
    requires Sorted(listed) && limit >= 1 && q < Due(limit, pages) < |listed|
    requires Clean(listed[..Min(q + limit + 1, |listed|)])
    ensures Receive(listed[..Due(limit, pages)], Cut(l, listed[q..], limit)) != Expected(l, listed, limit, pages + 1)
  {
    var due, end := Due(limit, pages), Min(q + limit + 1, |listed|);
    CleanSplit(listed, q, end);
    BeforeAsymmetric(listed[q].path, listed[due].path);
    hide Clean, Before, Sorted;
    assert listed[q..][..Min(limit + 1, |listed| - q)] == listed[q..][..end - q];
    var w := Receive(listed[..due], Cut(l, listed[q..], limit));
    assert !w.Failed? && w.received[due] == listed[q];
  }

  /** Following the cursors is exact, for any number of pages, exactly when every boundary is found. */
  lemma PagesExactIff(l: Listing, keys: seq<Key>, limit: nat)
    requires Sorted(keys) && limit >= 1
    ensures (forall pages: nat :: Follow(l, keys, limit, pages) == Expected(l, Select(l, keys), limit, pages))
            <==> BoundariesFound(l, Select(l, keys), limit)
  {
    hide Select, Sorted, Follow, Expected, BoundaryFound;
    if BoundariesFound(l, Select(l, keys), limit) {
      forall pages: nat
        ensures Follow(l, keys, limit, pages) == Expected(l, Select(l, keys), limit, pages)
      {
        FollowIsExpected(l, keys, limit, pages);
      }
    } else {
      var lost: nat :| !BoundaryFound(l, Select(l, keys), limit, lost);
      if Follow(l, keys, limit, lost) == Expected(l, Select(l, keys), limit, lost) {
        LostBoundaryRepeats(l, keys, limit, lost);
      }
    }
  }

  lemma {:induction false} FirstLost(l: Listing, listed: seq<Key>, limit: nat, lost: nat) returns (n: nat)
    requires !BoundaryFound(l, listed, limit, lost)
    ensures n <= lost && !BoundaryFound(l, listed, limit, n)
    ensures forall j: nat :: j < n ==> BoundaryFound(l, listed, limit, j)
  {
    hide BoundaryFound;
    n := lost;
    if j: nat :| j < lost && !BoundaryFound(l, listed, limit, j) { n := FirstLost(l, listed, limit, j); }
  }

  lemma {:induction false} FollowUntil(l: Listing, keys: seq<Key>, limit: nat, n: nat)
    requires Sorted(keys) && limit >= 1
    requires forall j: nat :: j < n ==> BoundaryFound(l, Select(l, keys), limit, j)
    ensures Follow(l, keys, limit, n) == Expected(l, Select(l, keys), limit, n)
  {
    hide Select, Sorted, BoundaryFound, GetPage, Clean, Receive;
    if n > 0 {
      FollowUntil(l, keys, limit, n - 1);
      NextExpected(l, keys, limit, n - 1);
    }
  }

  /** What a client has received only grows, and once it is done or has failed it stays so. */
  lemma {:induction false} FollowGrows(l: Listing, keys: seq<Key>, limit: nat, m: nat, n: nat)
    requires m <= n
    ensures var (before, after) := (Follow(l, keys, limit, m), Follow(l, keys, limit, n));
            && (!before.Walking? ==> after == before)
            && (!after.Failed? ==> !before.Failed? && before.received <= after.received)
    decreases n
  {
    hide GetPage;
    if m < n { FollowGrows(l, keys, limit, m, n - 1); }
  }

  /** If a client that has what is due goes back, it has some key twice from then on. */
  lemma LostMeansTwice(l: Listing, keys: seq<Key>, limit: nat, n: nat, pages: nat)
    requires Sorted(keys) && limit >= 1 && n < pages && Clean(Select(l, keys))
    requires Follow(l, keys, limit, n) == Expected(l, Select(l, keys), limit, n)
    requires !BoundaryFound(l, Select(l, keys), limit, n)
    ensures var w := Follow(l, keys, limit, pages);
            w.Failed? || exists i, j :: 0 <= i < j < |w.received| && w.received[i] == w.received[j]
  {
    hide Select, Sorted, Follow, Clean, BoundaryFound, Expected;
    var q := GoesBack(l, keys, limit, n);
    FollowGrows(l, keys, limit, n + 1, pages);
    var w := Follow(l, keys, limit, pages);
    if !w.Failed? { assert w.received[q] == w.received[Due(limit, n)]; }
  }

  lemma GoesBack(l: Listing, keys: seq<Key>, limit: nat, n: nat) returns (q: nat)
    requires Sorted(keys) && limit >= 1 && Clean(Select(l, keys))
    requires Follow(l, keys, limit, n) == Expected(l, Select(l, keys), limit, n)
    requires !BoundaryFound(l, Select(l, keys), limit, n)
    ensures var w, due := Follow(l, keys, limit, n + 1), Due(limit, n);
            !w.Failed? && q < due < |w.received| && w.received[q] == w.received[due]
  {
    hide Select, Seek, Sorted, Finds, Clean, Before, Cut, Receive;
    var listed, due := Select(l, keys), Due(limit, n);
    StartsAt(l, keys, limit, n);
    SelectSeek(l, keys, Follow(l, keys, limit, n).cursor);
    q := Landing(listed, l.Cursor(listed[due]));
    CutBack(l, listed, limit, due, q);
  }

  lemma CutBack(l: Listing, listed: seq<Key>, limit: nat, due: nat, q: nat)
    requires limit >= 1 && q < due < |listed| && Clean(listed)
    ensures var w := Receive(listed[..due], Cut(l, listed[q..], limit));
            !w.Failed? && due < |w.received| && w.received[q] == w.received[due]
  {
    CleanPart(listed, q, limit);
    hide Clean;
  }

  lemma CleanPart(listed: seq<Key>, q: nat, limit: nat)
    requires Clean(listed) && q <= |listed|
    ensures Clean(listed[q..][..Min(limit + 1, |listed| - q)])
  {
  }

  /** For an account whose keys are all well-formed: some number of pages ends with all wanted keys, each once and in
      order, exactly if every boundary is found. */
  lemma CompleteIff(l: Listing, keys: seq<Key>, limit: nat)
    requires Sorted(keys) && limit >= 1 && forall k :: k in keys ==> WellFormed(k)
    ensures (exists pages: nat ::
               Follow(l, keys, limit, pages).Done? && Complete(l, keys, Follow(l, keys, limit, pages).received))
            <==> BoundariesFound(l, Select(l, keys), limit)
  {
    hide Select, Sorted, Follow, Complete, BoundaryFound, WellFormed;
    if BoundariesFound(l, Select(l, keys), limit) {
      var pages := |keys| + 1;
      assert limit * pages >= pages;
      EnoughPages(l, keys, limit, pages);
      assert Follow(l, keys, limit, pages).Done? && Complete(l, keys, Follow(l, keys, limit, pages).received);
    } else {
      var lost: nat :| !BoundaryFound(l, Select(l, keys), limit, lost);
      var n := FirstLost(l, Select(l, keys), limit, lost);
      forall pages: nat
        ensures !(Follow(l, keys, limit, pages).Done? && Complete(l, keys, Follow(l, keys, limit, pages).received))
      {
        LostMeansIncomplete(l, keys, limit, n, pages);
      }
    }
  }

  lemma LostMeansIncomplete(l: Listing, keys: seq<Key>, limit: nat, n: nat, pages: nat)
    requires Sorted(keys) && limit >= 1 && forall k :: k in keys ==> WellFormed(k)
    requires !BoundaryFound(l, Select(l, keys), limit, n)
    requires forall j: nat :: j < n ==> BoundaryFound(l, Select(l, keys), limit, j)
    ensures !(Follow(l, keys, limit, pages).Done? && Complete(l, keys, Follow(l, keys, limit, pages).received))
  {
    hide Select, Sorted, Follow, Before, Wanted, Finds, Seek;
    FollowUntil(l, keys, limit, n);
    if pages <= n {
      FollowGrows(l, keys, limit, pages, n);
    } else {
      AllClean(l, keys);
      LostMeansTwice(l, keys, limit, n, pages);
    }
  }

  lemma AllClean(l: Listing, keys: seq<Key>)
    requires Sorted(keys) && forall k :: k in keys ==> WellFormed(k)
    ensures Clean(Select(l, keys))
  {
    SelectSorted(l, keys);
  }

  /** If the first key not on the first page is a resource group, and the first key of the page lies between that
      group and its cursor, the pages never end: every page is the first page again. */
  lemma {:induction false} ResourcePagesLoop(keys: seq<Key>, limit: nat, pages: nat)
    requires Sorted(keys) && 1 <= limit < |Select(Resources, keys)|
    requires Clean(Select(Resources, keys)[..limit + 1])
    requires Of(Select(Resources, keys)[limit], ResourceGroupVariant)
    requires Between(Select(Resources, keys)[0], Select(Resources, keys)[limit])
    ensures var listed, w := Select(Resources, keys), Follow(Resources, keys, limit, pages);
            && w.Walking? && w.cursor == (if pages == 0 then None else Some(Resources.Cursor(listed[limit])))
            && |w.received| == Due(limit, pages) && forall k :: k in w.received ==> k in listed[..limit]
  {
    hide Before, Between, Select, Seek, Sorted, Of, Clean;
    if pages > 0 {
      ResourcePagesLoop(keys, limit, pages - 1);
      var listed, before := Select(Resources, keys), Follow(Resources, keys, limit, pages - 1);
      SelectSorted(Resources, keys);
      FirstStaysFirst(listed, limit, before.cursor);
      SelectSeek(Resources, keys, before.cursor);
      assert listed[..Min(limit + 1, |listed|)] == listed[..limit + 1];
    }
  }

  lemma FirstStaysFirst(listed: seq<Key>, p: nat, c: Option<Bytes>)
    requires Sorted(listed) && 0 < p < |listed| && Of(listed[p], ResourceGroupVariant) && Between(listed[0], listed[p])
    requires c.None? || c == Some(Resources.Cursor(listed[p]))
    ensures Seek(listed, c) == listed
  {
    BetweenBlocks(listed[0], listed[p]);
  }

  /** Two resources and a resource group. */
  function Loop(group: Bytes, first: Bytes, second: Bytes): (keys: seq<Key>)
    ensures |keys| == 3
  {
    [Key([ResourceVariant] + first, true), Key([ResourceVariant] + second, true),
     Key([ResourceGroupVariant] + group, true)]
  }

  /** Tags of one length, with the group's before the others. */
  predicate LoopTags(group: Bytes, first: Bytes, second: Bytes) {
    |group| == |first| == |second| && LexLess(group, first) && LexLess(first, second)
  }

  /** Whatever the three tags are, with two keys a page a client following the cursors of that account never
      finishes and never receives the group. */
  lemma ResourcePagesMayLoop(group: Bytes, first: Bytes, second: Bytes, pages: nat)
    requires LoopTags(group, first, second)
    ensures Sorted(Loop(group, first, second))
    ensures var keys := Loop(group, first, second);
            var w := Follow(Resources, keys, 2, pages); w.Walking? && keys[2] !in w.received
  {
    hide Loop, Follow, LoopTags, Between, Of;
    LoopAccount(group, first, second);
    ResourcePagesLoop(Loop(group, first, second), 2, pages);
  }

  lemma LoopAccount(group: Bytes, first: Bytes, second: Bytes)
    requires LoopTags(group, first, second)
    ensures var s := Loop(group, first, second);
            && Sorted(s) && Select(Resources, s) == s && Clean(s[..3])
            && Of(s[2], ResourceGroupVariant) && Between(s[0], s[2]) && s[2] !in s[..2]
  {
    var s := Loop(group, first, second);
    LoopListed(group, first, second);
    LoopSorted(group, first, second);
    assert s[0].path[1..] == first && s[2].path[1..] == group;
    LexIrreflexive(group);
    if LexLess(first, group) { LexTransitive(group, first, group); }
    hide Before, Select;
  }

  lemma LoopListed(group: Bytes, first: Bytes, second: Bytes)
    ensures Select(Resources, Loop(group, first, second)) == Loop(group, first, second)
  {
    var s := Loop(group, first, second);
    assert s[1..] == [s[1], s[2]] && s[1..][1..] == [s[2]];
    assert Select(Resources, [s[2]]) == [s[2]];
    assert Select(Resources, s[1..]) == s[1..];
  }

  lemma LoopSorted(group: Bytes, first: Bytes, second: Bytes)
    requires LoopTags(group, first, second)
    ensures Sorted(Loop(group, first, second))
  {
    var s := Loop(group, first, second);
    OrderedPaths(ResourceVariant, first, ResourceVariant, second);
    OrderedPaths(ResourceVariant, first, ResourceGroupVariant, group);
    OrderedPaths(ResourceVariant, second, ResourceGroupVariant, group);
    hide Before, LexLess;
    assert Before(s[0].path, s[1].path) && Before(s[0].path, s[2].path) && Before(s[1].path, s[2].path);
  }

  lemma OrderedPaths(v: Byte, a: Bytes, w: Byte, b: Bytes)
    requires |a| == |b| && (v < w || (v == w && LexLess(a, b)))
    ensures Before([v] + a, [w] + b)
  {
    BeforeByLength([v] + a, [w] + b);
    TailSame(v, w, a, b);
  }
}
