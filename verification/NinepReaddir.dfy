/**
 * What a directory listing shows: each reply is the run of entries after the cookie that fits, and
 * resuming at the last cookie until nothing comes lists every entry once, in order.
 */
module NinepReaddir {
  import opened Bytes
  import opened NinepTree
  import opened NinepServer

  // ── The entries of a directory ────────────────────────────────────────────

  /** Entry `k`: the directory itself, its parent, then its children; the cookie is one more. */
  function EntryAt(t: seq<Inode>, dir: nat, k: nat): Dirent<nat>
    requires Tree(t) && dir < |t| && k < 2 + |t[dir].children|
  {
    assert NodeOk(t, dir);
    if k == 0 then Dirent(Qid(true, dir), 1, true, [46])
    else if k == 1 then Dirent(Qid(true, t[dir].parent), 2, true, [46, 46])
    else
      var l := t[dir].children[k - 2];
      Dirent(Qid(t[l.ino].isDir, l.ino), k + 1, t[l.ino].isDir, l.name)
  }

  /** Entries `lo` to `hi`. */
  function Entries(t: seq<Inode>, dir: nat, lo: nat, hi: nat): (r: seq<Dirent<nat>>)
    requires Tree(t) && dir < |t| && lo <= hi <= 2 + |t[dir].children|
    ensures |r| == hi - lo
  {
    seq(hi - lo, k requires 0 <= k < hi - lo => EntryAt(t, dir, lo + k))
  }

  lemma {:induction false} ChildDirentsAt(t: seq<Inode>, links: seq<Link>, cookie: nat, k: nat)
    requires (forall j :: 0 <= j < |links| ==> links[j].ino < |t|)
    ensures |ChildDirents(t, links, cookie)| == |links|
    ensures k < |links| ==>
      var l := links[k];
      ChildDirents(t, links, cookie)[k] == Dirent(Qid(t[l.ino].isDir, l.ino), cookie + k, t[l.ino].isDir, l.name)
    decreases |links|
  {
    if links == [] {
    } else {
      ChildDirentsAt(t, links[1..], cookie + 1, if k == 0 then 0 else k - 1);
    }
  }

  lemma DirentsAreEntries(t: seq<Inode>, dir: nat)
    requires Tree(t) && dir < |t| && t[dir].isDir
    ensures Dirents(t, dir) == Entries(t, dir, 0, 2 + |t[dir].children|)
  {
    hide Tree, ChildDirents;
    var links := t[dir].children;
    assert forall j :: 0 <= j < |links| ==> links[j].ino < |t| by { ChildrenInRange(t, dir); }
    ChildDirentsAt(t, links, 3, 0);
    forall k | 0 <= k < 2 + |links|
      ensures Dirents(t, dir)[k] == EntryAt(t, dir, k)
    {
      if k >= 2 {
        ChildDirentsAt(t, links, 3, k - 2);
      }
    }
  }

  lemma ChildrenInRange(t: seq<Inode>, dir: nat)
    requires Tree(t) && dir < |t|
    ensures forall j :: 0 <= j < |t[dir].children| ==> t[dir].children[j].ino < |t|
  {
    assert NodeOk(t, dir);
  }

  // ── One reply ─────────────────────────────────────────────────────────────

  /** What entries take up in a reply: a 13-byte qid, the cookie, the type, and the name with its length. */
  function Room(es: seq<Dirent<nat>>): nat {
    if es == [] then 0 else 13 + 8 + 1 + 2 + |es[0].name| + Room(es[1..])
  }

  predicate Numbered(es: seq<Dirent<nat>>, first: nat) {
    forall k :: 0 <= k < |es| ==> es[k].cookie == first + k
  }

  /** `n` entries from `lo` on are as many as fit into `count` bytes. */
  predicate AsManyAsFit(es: seq<Dirent<nat>>, lo: nat, n: nat, count: nat) {
    && lo + n <= |es| && Room(es[lo..lo + n]) <= count
    && (lo + n < |es| ==> Room(es[lo..lo + n + 1]) > count)
  }

  lemma {:induction false} RoomOfMore(es: seq<Dirent<nat>>, e: Dirent<nat>)
    ensures Room(es + [e]) == Room(es) + 24 + |e.name|
    decreases |es|
  {
    if es == [] {
      assert es + [e] == [e] && [e][1..] == [];
    } else {
      assert (es + [e])[1..] == es[1..] + [e];
      RoomOfMore(es[1..], e);
    }
  }

  lemma {:induction false} SkipsTo(es: seq<Dirent<nat>>, first: nat, offset: nat, room: int)
    requires Numbered(es, first) && first > 0
    ensures var lo := if offset < first then 0 else Min(offset - first + 1, |es|);
      Fitting(es, offset, room) == Fitting(es[lo..], offset, room)
    decreases |es|
  {
    var lo := if offset < first then 0 else Min(offset - first + 1, |es|);
    if es == [] || offset < first {
      assert es[lo..] == es;
    } else {
      assert Numbered(es[1..], first + 1) by {
        assert forall k :: 0 <= k < |es[1..]| ==> es[1..][k] == es[k + 1];
      }
      SkipsTo(es[1..], first + 1, offset, room);
      assert es[1..][lo - 1..] == es[lo..];
    }
  }

  /** Past the cookie, the entries are taken as long as they fit. */
  lemma {:induction false} TakesWhatFits(es: seq<Dirent<nat>>, first: nat, offset: nat, room: nat)
    requires Numbered(es, first) && offset < first
    ensures var n := |Fitting(es, offset, room)|;
      AsManyAsFit(es, 0, n, room) && Fitting(es, offset, room) == es[..n]
    decreases |es|
  {
    if es == [] {
    } else if 24 + |es[0].name| > room {
      assert es[0..1] == [es[0]] && [es[0]][1..] == [] && es[0..0] == [];
    } else {
      var rest, less := es[1..], room - 24 - |es[0].name|;
      assert Numbered(rest, first + 1) by { assert forall k :: 0 <= k < |rest| ==> rest[k] == es[k + 1]; }
      TakesWhatFits(rest, first + 1, offset, less);
      var n := |Fitting(rest, offset, less)|;
      assert es[..n + 1] == [es[0]] + rest[..n] && es[..n + 1][1..] == rest[..n];
      if n < |rest| {
        assert es[..n + 2] == [es[0]] + rest[..n + 1] && es[..n + 2][1..] == rest[..n + 1];
      }
    }
  }

  /** A directory that can be listed now, and the fid it is listed through. */
  predicate Listable(s: Server, fid: nat) {
    Valid(s) && fid in s.fids && s.tree[s.fids[fid]].isDir && (s.lazy ==> s.tree[s.fids[fid]].loaded)
  }

  /** Past the cookie `offset`: the entries from there on, as many as fit into `count` bytes, and nothing
      else; the server stays as it is. */
  lemma ReaddirExactly(s: Server, fid: nat, offset: nat, count: nat) returns (n: nat)
    requires Listable(s, fid)
    ensures var dir := s.fids[fid];
      var total := 2 + |s.tree[dir].children|;
      var lo := Min(offset, total);
      && AsManyAsFit(Entries(s.tree, dir, 0, total), lo, n, count)
      && Handle(s, Readdir(fid, offset, count)) == (s, Answer(RReaddir(Entries(s.tree, dir, lo, lo + n))))
  {
    hide Fitting, Tree, Dirents, EntryAt, AsManyAsFit, Room;
    var dir := s.fids[fid];
    var total := 2 + |s.tree[dir].children|;
    var lo, all := Min(offset, total), Entries(s.tree, dir, 0, total);
    DirentsAreEntries(s.tree, dir);
    assert Numbered(all, 1) by { CookiesCount(s.tree, dir); }
    SkipsTo(all, 1, offset, count);
    assert Numbered(all[lo..], lo + 1) by { assert forall k :: 0 <= k < |all[lo..]| ==> all[lo..][k] == all[lo + k]; }
    n := |Fitting(all[lo..], offset, count)|;
    if offset < total {
      TakesWhatFits(all[lo..], lo + 1, offset, count);
      FitsFromThere(all, lo, n, count);
      assert all[lo..][..n] == Entries(s.tree, dir, lo, lo + n);
    } else {
      NothingLeft(all, offset, count);
    }
  }

  lemma CookiesCount(t: seq<Inode>, dir: nat)
    requires Tree(t) && dir < |t|
    ensures Numbered(Entries(t, dir, 0, 2 + |t[dir].children|), 1)
  {
    hide EntryAt, Tree;
    var all := Entries(t, dir, 0, 2 + |t[dir].children|);
    forall k | 0 <= k < |all|
      ensures all[k].cookie == 1 + k
    {
      CookieAt(t, dir, k);
    }
  }

  lemma FitsFromThere(es: seq<Dirent<nat>>, lo: nat, n: nat, count: nat)
    requires lo <= |es| && AsManyAsFit(es[lo..], 0, n, count)
    ensures lo + n <= |es| && AsManyAsFit(es, lo, n, count)
  {
    assert es[lo..][0..n] == es[lo..lo + n];
    if lo + n < |es| {
      assert es[lo..][0..n + 1] == es[lo..lo + n + 1];
    }
  }

  lemma NothingLeft(es: seq<Dirent<nat>>, offset: nat, count: nat)
    ensures Fitting(es[|es|..], offset, count) == [] && AsManyAsFit(es, |es|, 0, count)
  {
    assert es[|es|..|es|] == [];
  }

  // ── Resuming ──────────────────────────────────────────────────────────────

  /** The replies a client gets that starts after cookie `offset`, resumes at the last cookie it has seen and
      stops at an empty reply. */
  predicate Transcript(s: Server, fid: nat, offset: nat, count: nat, replies: seq<seq<Dirent<nat>>>)
    requires Valid(s)
    decreases |replies|
  {
    && replies != []
    && Handle(s, Readdir(fid, offset, count)) == (s, Answer(RReaddir(replies[0])))
    && if replies[0] == [] then |replies| == 1
       else Transcript(s, fid, replies[0][|replies[0]| - 1].cookie, count, replies[1..])
  }

  function Together(replies: seq<seq<Dirent<nat>>>): seq<Dirent<nat>> {
    if replies == [] then [] else replies[0] + Together(replies[1..])
  }

  /** Each of the entries from `lo` to `hi` fits into a reply of its own. */
  predicate EachFits(t: seq<Inode>, dir: nat, lo: nat, hi: nat, count: nat)
    requires Tree(t) && dir < |t| && lo <= hi <= 2 + |t[dir].children|
  {
    forall k :: lo <= k < hi ==> 24 + |EntryAt(t, dir, k).name| <= count
  }

  /** How far a client gets from entry `lo`: up to the first entry that does not fit. */
  function Reached(t: seq<Inode>, dir: nat, lo: nat, count: nat): (hi: nat)
    requires Tree(t) && dir < |t| && lo <= 2 + |t[dir].children|
    ensures lo <= hi <= 2 + |t[dir].children| && EachFits(t, dir, lo, hi, count)
    ensures hi < 2 + |t[dir].children| ==> 24 + |EntryAt(t, dir, hi).name| > count
    decreases 2 + |t[dir].children| - lo
  {
    if lo == 2 + |t[dir].children| || 24 + |EntryAt(t, dir, lo).name| > count then lo
    else Reached(t, dir, lo + 1, count)
  }

  lemma {:induction false} ReachedFurther(t: seq<Inode>, dir: nat, lo: nat, mid: nat, count: nat)
    requires Tree(t) && dir < |t| && lo <= mid <= 2 + |t[dir].children| && EachFits(t, dir, lo, mid, count)
    ensures Reached(t, dir, lo, count) == Reached(t, dir, mid, count)
    decreases mid - lo
  {
    if lo == mid {
    } else {
      ReachedFurther(t, dir, lo + 1, mid, count);
    }
  }

  lemma {:induction false} PartsFit(es: seq<Dirent<nat>>, k: nat)
    requires k < |es|
    ensures 24 + |es[k].name| <= Room(es)
    decreases |es|
  {
    if k == 0 {
    } else {
      PartsFit(es[1..], k - 1);
    }
  }

  /** A reply holds entries that fit, and is empty only at the end or before one that does not fit. */
  lemma ReplyFits(t: seq<Inode>, dir: nat, lo: nat, n: nat, count: nat)
    requires Tree(t) && dir < |t| && lo <= 2 + |t[dir].children|
    requires AsManyAsFit(Entries(t, dir, 0, 2 + |t[dir].children|), lo, n, count)
    ensures lo + n <= 2 + |t[dir].children| && EachFits(t, dir, lo, lo + n, count)
    ensures n == 0 ==> Reached(t, dir, lo, count) == lo
  {
    hide Tree, EntryAt;
    var total := 2 + |t[dir].children|;
    var all := Entries(t, dir, 0, total);
    forall k | lo <= k < lo + n
      ensures 24 + |EntryAt(t, dir, k).name| <= count
    {
      assert all[lo..lo + n][k - lo] == EntryAt(t, dir, k);
      PartsFit(all[lo..lo + n], k - lo);
    }
    if n == 0 && lo < total {
      assert all[lo..lo + 1] == [] + [EntryAt(t, dir, lo)];
      RoomOfMore([], EntryAt(t, dir, lo));
    }
  }

  /** Whatever the room in a reply, a client that reads on until nothing comes sees the entries from where it
      started up to the first that does not fit a reply, each once and in order. */
  lemma {:induction false} ResumingLists(s: Server, fid: nat, offset: nat, count: nat,
                                         replies: seq<seq<Dirent<nat>>>)
    requires Listable(s, fid) && offset <= 2 + |s.tree[s.fids[fid]].children|
    requires Transcript(s, fid, offset, count, replies)
    ensures var dir := s.fids[fid];
      Together(replies) == Entries(s.tree, dir, offset, Reached(s.tree, dir, offset, count))
    decreases |replies|
  {
    hide Handle, AsManyAsFit, Tree, EntryAt, Reached, Room;
    var t, dir := s.tree, s.fids[fid];
    var n := ReaddirExactly(s, fid, offset, count);
    ReplyFits(t, dir, offset, n, count);
    assert replies[0] == Entries(t, dir, offset, offset + n);
    if n == 0 {
      assert Together(replies) == [] by { assert replies == [[]]; assert Together([[]]) == [] + Together([]); }
    } else {
      assert replies[0][n - 1].cookie == offset + n by { CookieAt(t, dir, offset + n - 1); }
      ResumingLists(s, fid, offset + n, count, replies[1..]);
      ReachedFurther(t, dir, offset, offset + n, count);
      var hi := Reached(t, dir, offset, count);
      assert Entries(t, dir, offset, offset + n) + Entries(t, dir, offset + n, hi) == Entries(t, dir, offset, hi);
    }
  }

  lemma CookieAt(t: seq<Inode>, dir: nat, k: nat)
    requires Tree(t) && dir < |t| && k < 2 + |t[dir].children|
    ensures EntryAt(t, dir, k).cookie == k + 1
  {}

  /** And it comes to an end: there is such a series of replies, with at most one for each entry before the
      empty one. */
  lemma {:induction false} ResumingEnds(s: Server, fid: nat, offset: nat, count: nat)
    returns (replies: seq<seq<Dirent<nat>>>)
    requires Listable(s, fid) && offset <= 2 + |s.tree[s.fids[fid]].children|
    ensures Transcript(s, fid, offset, count, replies)
    ensures |replies| <= 3 + |s.tree[s.fids[fid]].children| - offset
    decreases 2 + |s.tree[s.fids[fid]].children| - offset
  {
    hide Handle, AsManyAsFit, Tree, EntryAt, Room;
    var t, dir := s.tree, s.fids[fid];
    var n := ReaddirExactly(s, fid, offset, count);
    assert offset + n <= 2 + |t[dir].children| by { ReplyFits(t, dir, offset, n, count); }
    var first := Entries(t, dir, offset, offset + n);
    if n == 0 {
      replies := [first];
    } else {
      assert first[n - 1].cookie == offset + n by { CookieAt(t, dir, offset + n - 1); }
      var rest := ResumingEnds(s, fid, offset + n, count);
      replies := [first] + rest;
      assert replies[1..] == rest;
    }
  }

  /** Reading a directory from the start lists all of it exactly when every name fits a reply. */
  lemma ListsAllExactly(s: Server, fid: nat, count: nat, replies: seq<seq<Dirent<nat>>>)
    requires Listable(s, fid) && Transcript(s, fid, 0, count, replies)
    ensures var (dir, total) := (s.fids[fid], 2 + |s.tree[s.fids[fid]].children|);
      Together(replies) == Entries(s.tree, dir, 0, total) <==> EachFits(s.tree, dir, 0, total, count)
  {
    hide Transcript, Entries, EntryAt;
    ResumingLists(s, fid, 0, count, replies);
  }
}
