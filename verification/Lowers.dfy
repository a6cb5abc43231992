/** The overlay driver's lowers files: each layer lists the links of its ancestors, nearest first,
    and a mount stacks what they lead to. Links change when a layer is pulled again, so committing
    an image repairs the lowers files of the layers it reuses, from the base up. */
module Lowers {
  import opened Options
  import opened Text

  type Id = string

  /** A layer's directory: the file with the name of its link, and its lowers file. */
  datatype Dir = Dir(link: Option<string>, lower: Option<string>)

  type Dirs = map<Id, Dir>

  /** The link directory: the symbolic links by name, with the layer each one leads to. */
  type Links = map<string, Id>

  const MAX_DEPTH := 128

  const NAMELESS := ["", "l", "l/"]

  function LinkPath(name: string): string {
    "l/" + name
  }

  predicate IsLinkPath(path: string) {
    |path| >= 2 && path[..2] == "l/"
  }

  predicate Leads(links: Links, path: string, id: Id) {
    IsLinkPath(path) && path[2..] in links && links[path[2..]] == id
  }

  /** The path, taken from the driver's home, leads to something; the empty one to the home, and
      what is left of a link without its name to the link directory. */
  predicate Present(dirs: Dirs, links: Links, path: string) {
    path in NAMELESS || (IsLinkPath(path) && path[2..] in links && links[path[2..]] in dirs)
  }

  function LowerFile(dirs: Dirs, id: Id): Option<string> {
    if id in dirs then dirs[id].lower else None
  }

  /** A missing lowers file reads as an empty one, whose only entry is empty. */
  function Entries(lower: Option<string>): seq<string> {
    Split(if lower.Some? then lower.value else "", ':')
  }

  predicate Broken(dirs: Dirs, links: Links, id: Id) {
    exists e :: e in Entries(LowerFile(dirs, id)) && !Present(dirs, links, e)
  }

  /** The lowers a layer lists, none if it has no lowers file. */
  function Listed(lower: Option<string>): seq<string> {
    if lower.Some? then Split(lower.value, ':') else []
  }

  /** What a child of `parent` is to list. */
  function LowersOver(dirs: Dirs, parent: Id): Option<seq<string>> {
    if parent !in dirs || dirs[parent].link.None? then None
    else
      var lowers := [LinkPath(dirs[parent].link.value)] + Listed(dirs[parent].lower);
      if |lowers| > MAX_DEPTH then None else Some(lowers)
  }

  /** The directories after a repair whose write works. */
  function Repaired(dirs: Dirs, links: Links, id: Id, parent: Id): Dirs {
    if Broken(dirs, links, id) && LowersOver(dirs, parent).Some?
    then dirs[id := dirs[id].(lower := Some(Join(LowersOver(dirs, parent).value, ':')))] else dirs
  }

  // ---- In terms of the files alone ----

  /** The path is neither the home nor the link directory, and no link that leads to a layer. */
  ghost predicate LeadsNowhere(dirs: Dirs, links: Links, path: string) {
    && path != "" && path != "l" && path != "l/"
    && forall name :: name in links && links[name] in dirs ==> path != "l/" + name
  }

  /** The lowers file of the layer, taken for empty if there is none, has such a path in it. */
  ghost predicate NeedsRepair(dirs: Dirs, links: Links, id: Id) {
    var file := if id in dirs && dirs[id].lower.Some? then dirs[id].lower.value else "";
    OneLost(dirs, links, Split(file, ':'))
  }

  ghost predicate OneLost(dirs: Dirs, links: Links, paths: seq<string>) {
    exists k :: 0 <= k < |paths| && LeadsNowhere(dirs, links, paths[k])
  }

  lemma BrokenIff(dirs: Dirs, links: Links, id: Id)
    ensures Broken(dirs, links, id) <==> NeedsRepair(dirs, links, id)
  {
    var entries := Entries(LowerFile(dirs, id));
    var file := if id in dirs && dirs[id].lower.Some? then dirs[id].lower.value else "";
    assert entries == Split(file, ':');
    forall e: string
      ensures Present(dirs, links, e) <==> !LeadsNowhere(dirs, links, e)
    {
      PresentIff(dirs, links, e);
    }
    if OneLost(dirs, links, entries) {
      var k :| 0 <= k < |entries| && LeadsNowhere(dirs, links, entries[k]);
      assert entries[k] in entries;
    }
    if Broken(dirs, links, id) {
      var e :| e in entries && !Present(dirs, links, e);
      var k :| 0 <= k < |entries| && entries[k] == e;
      assert LeadsNowhere(dirs, links, entries[k]);
    }
  }

  lemma PresentIff(dirs: Dirs, links: Links, path: string)
    ensures Present(dirs, links, path) <==> !LeadsNowhere(dirs, links, path)
  {
    assert IsLinkPath(path) ==> path == "l/" + path[2..];
    forall name | name in links && path == "l/" + name
      ensures IsLinkPath(path) && path[2..] == name
    {
    }
  }

  /** The list is that of the parent's link and of all the parent lists, and of 128 at most. */
  ghost predicate OverIs(dirs: Dirs, parent: Id, lowers: seq<string>) {
    && parent in dirs && dirs[parent].link.Some? && 1 <= |lowers| <= 128
    && lowers[0] == "l/" + dirs[parent].link.value
    && if dirs[parent].lower.Some? then lowers[1..] == Split(dirs[parent].lower.value, ':') else |lowers| == 1
  }

  lemma OverIff(dirs: Dirs, parent: Id, lowers: seq<string>)
    ensures LowersOver(dirs, parent) == Some(lowers) <==> OverIs(dirs, parent, lowers)
  {
    if lowers != [] {
      assert lowers == [lowers[0]] + lowers[1..];
    }
  }

  /** A repair whose write works changes the lowers file of this layer alone, just if it needs one and
      the parent's list can be had, and to that list. */
  lemma RepairedIs(dirs: Dirs, links: Links, id: Id, parent: Id, lowers: seq<string>)
    ensures !NeedsRepair(dirs, links, id) ==> Repaired(dirs, links, id, parent) == dirs
    ensures (forall over :: !OverIs(dirs, parent, over)) ==> Repaired(dirs, links, id, parent) == dirs
    ensures NeedsRepair(dirs, links, id) && OverIs(dirs, parent, lowers) ==>
              var dirs' := Repaired(dirs, links, id, parent);
              && dirs'.Keys == dirs.Keys && id in dirs
              && (forall other :: other in dirs && other != id ==> dirs'[other] == dirs[other])
              && dirs'[id].link == dirs[id].link && dirs'[id].lower == Some(Join(lowers, ':'))
  {
    BrokenIff(dirs, links, id);
    OverIff(dirs, parent, lowers);
    if LowersOver(dirs, parent).Some? {
      OverIff(dirs, parent, LowersOver(dirs, parent).value);
    }
  }

  // ---- What the files mean ----

  /** The list leads to the ancestors, nearest first, and to nothing else. */
  ghost predicate Stacks(dirs: Dirs, links: Links, lowers: seq<string>, ancestors: seq<Id>) {
    && |lowers| == |ancestors|
    && forall i {:trigger lowers[i]} :: 0 <= i < |lowers| ==>
         var a := ancestors[|ancestors| - 1 - i]; Leads(links, lowers[i], a) && a in dirs
  }

  ghost predicate OwnLink(dirs: Dirs, links: Links, id: Id) {
    && id in dirs && dirs[id].link.Some? && ':' !in dirs[id].link.value
    && Leads(links, LinkPath(dirs[id].link.value), id)
  }

  /** The layer at `k` of the chain can be mounted over its ancestors and built upon. */
  ghost predicate Stacked(dirs: Dirs, links: Links, ids: seq<Id>, k: nat)
    requires k < |ids|
  {
    OwnLink(dirs, links, ids[k]) && Stacks(dirs, links, Listed(dirs[ids[k]].lower), ids[..k])
  }

  ghost predicate Distinct(ids: seq<string>) {
    forall i, j :: 0 <= i < j < |ids| ==> ids[i] != ids[j]
  }

  lemma {:induction false} PartsArePlain(s: string, sep: char)
    ensures forall p :: p in Split(s, sep) ==> sep !in p
  {
    if s != [] {
      PartsArePlain(s[1..], sep);
    }
  }

  /** A list that was written reads back as it was. */
  lemma ListReadsBack(dirs: Dirs, parent: Id)
    requires LowersOver(dirs, parent).Some? && ':' !in dirs[parent].link.value
    ensures var lowers := LowersOver(dirs, parent).value; Listed(Some(Join(lowers, ':'))) == lowers
  {
    var lower := dirs[parent].lower;
    if lower.Some? {
      PartsArePlain(lower.value, ':');
    }
    SplitJoin([LinkPath(dirs[parent].link.value)] + Listed(lower), ':');
  }

  /** A new list is the parent's link over the parent's lowers; it stacks right if they do. */
  lemma StacksOver(dirs: Dirs, links: Links, ids: seq<Id>, k: nat)
    requires 0 < k < |ids| && k <= MAX_DEPTH && Stacked(dirs, links, ids, k - 1)
    ensures LowersOver(dirs, ids[k - 1]).Some?
    ensures Stacks(dirs, links, LowersOver(dirs, ids[k - 1]).value, ids[..k])
  {
    var parent := dirs[ids[k - 1]];
    OneMore(dirs, links, LinkPath(parent.link.value), ids[k - 1], Listed(parent.lower), ids[..k - 1]);
    assert ids[..k] == ids[..k - 1] + [ids[k - 1]];
  }

  lemma OneMore(dirs: Dirs, links: Links, path: string, id: Id, lowers: seq<string>, ancestors: seq<Id>)
    requires Stacks(dirs, links, lowers, ancestors) && Leads(links, path, id) && id in dirs
    ensures Stacks(dirs, links, [path] + lowers, ancestors + [id])
  {
    var above, n := [path] + lowers, |ancestors|;
    forall i | 0 <= i < |above|
      ensures Leads(links, above[i], (ancestors + [id])[n - i]) && (ancestors + [id])[n - i] in dirs
    {
      if i > 0 {
        assert above[i] == lowers[i - 1] && (ancestors + [id])[n - i] == ancestors[n - 1 - (i - 1)];
      }
    }
  }

  lemma SameElsewhere(dirs: Dirs, dirs': Dirs, id: Id, other: Id)
    requires dirs - {id} == dirs' - {id} && id != other
    ensures other in dirs <==> other in dirs'
    ensures other in dirs ==> dirs[other] == dirs'[other]
  {
    assert other in dirs <==> other in dirs - {id};
    assert other in dirs ==> dirs[other] == (dirs - {id})[other] == (dirs' - {id})[other];
  }

  /** Whatever its lowers file holds, a layer over a parent that stacks right stacks right after the
      repair exactly if it did before, or something in the file leads nowhere and the stack is not
      too deep. */
  lemma RepairStacksIff(dirs: Dirs, links: Links, ids: seq<Id>, k: nat)
    requires Distinct(ids) && k < |ids| && "" !in dirs && OwnLink(dirs, links, ids[k])
    requires k > 0 ==> Stacked(dirs, links, ids, k - 1)
    ensures Stacked(Repaired(dirs, links, ids[k], Parent(ids, k)), links, ids, k) <==>
            Stacked(dirs, links, ids, k) || (0 < k <= MAX_DEPTH && Broken(dirs, links, ids[k]))
  {
    if 0 < k <= MAX_DEPTH && Broken(dirs, links, ids[k]) {
      StacksOver(dirs, links, ids, k);
      ListReadsBack(dirs, ids[k - 1]);
    }
  }

  function Parent(ids: seq<Id>, k: nat): Id
    requires k < |ids|
  {
    if k == 0 then "" else ids[k - 1]
  }

  /** The names of links are all of one length, and not empty. */
  ghost predicate NamesAlike(links: Links) {
    forall m, n :: m in links && n in links ==> |m| == |n| > 0
  }

  function Last(parts: seq<string>): string
    requires parts != []
  {
    parts[|parts| - 1]
  }

  /** A file that is missing, or cut short anywhere when it was written, is repaired exactly if it was
      cut within the name of a link. Cut before the name, or behind a whole link, what it lists is
      all there, and it stays as it is. */
  lemma LostLowersStayLost(dirs: Dirs, links: Links, ids: seq<Id>, k: nat, p: nat)
    requires Distinct(ids) && 0 < k < |ids| && k <= MAX_DEPTH && "" !in dirs && NamesAlike(links)
    requires Stacked(dirs, links, ids, k - 1) && OwnLink(dirs, links, ids[k]) && LowersOver(dirs, ids[k - 1]).Some?
    requires var full := LowersOver(dirs, ids[k - 1]).value;
      dirs[ids[k]].lower == None || (p < |Join(full, ':')| && dirs[ids[k]].lower == Some(Join(full, ':')[..p]))
    ensures var full, last := LowersOver(dirs, ids[k - 1]).value, Last(Entries(dirs[ids[k]].lower));
      var dirs' := Repaired(dirs, links, ids[k], ids[k - 1]);
      && (Stacked(dirs', links, ids, k) <==> last !in NAMELESS && last !in full)
      && (!Stacked(dirs', links, ids, k) ==> dirs' == dirs)
  {
    RepairStacksIff(dirs, links, ids, k);
    StacksOver(dirs, links, ids, k);
    var lower, full := dirs[ids[k]].lower, LowersOver(dirs, ids[k - 1]).value;
    if lower == None {
      assert Entries(lower) == [""];
    } else {
      PartsArePlainList(dirs, ids[k - 1]);
      var m, q := SplitPrefix(full, ':', p);
      assert Listed(lower) == Entries(lower) == full[..m] + [full[m][..q]];
      CutStacks(dirs, links, ids, k, full, m, q);
      CutIsBroken(dirs, links, ids, k, full, m, q);
    }
  }

  /** A list cut short does not stack right. */
  lemma CutStacks(dirs: Dirs, links: Links, ids: seq<Id>, k: nat, full: seq<string>, m: nat, q: nat)
    requires k < |ids| && Stacks(dirs, links, full, ids[..k]) && NamesAlike(links)
    requires m < |full| && q <= |full[m]| && (m < |full| - 1 || q < |full[m]|)
    ensures !Stacks(dirs, links, full[..m] + [full[m][..q]], ids[..k])
  {
    var cut := full[..m] + [full[m][..q]];
    assert cut[m] == full[m][..q];
  }

  /** In a list cut short something leads nowhere exactly if the cut is within the name of a link. */
  lemma CutIsBroken(dirs: Dirs, links: Links, ids: seq<Id>, k: nat, full: seq<string>, m: nat, q: nat)
    requires k < |ids| && Stacks(dirs, links, full, ids[..k]) && NamesAlike(links)
    requires m < |full| && q <= |full[m]| && Entries(LowerFile(dirs, ids[k])) == full[..m] + [full[m][..q]]
    ensures Broken(dirs, links, ids[k]) <==> full[m][..q] !in NAMELESS && full[m][..q] !in full
  {
    var last := full[m][..q];
    AllPresent(dirs, links, full, ids[..k]);
    assert Present(dirs, links, last) <==> last in NAMELESS || last in full by {
      CutPresent(dirs, links, full[m], q);
      assert q == |full[m]| ==> last == full[m];
    }
    assert last in full[..m] + [last] by {
      assert (full[..m] + [last])[m] == last;
    }
  }

  lemma AllPresent(dirs: Dirs, links: Links, lowers: seq<string>, ancestors: seq<Id>)
    requires Stacks(dirs, links, lowers, ancestors)
    ensures forall e :: e in lowers ==> Present(dirs, links, e) && IsLinkPath(e) && e[2..] in links
  {
    forall e | e in lowers
      ensures Present(dirs, links, e) && IsLinkPath(e) && e[2..] in links
    {
      var i :| 0 <= i < |lowers| && lowers[i] == e;
      assert Leads(links, lowers[i], ancestors[|ancestors| - 1 - i]);
    }
  }

  lemma CutPresent(dirs: Dirs, links: Links, path: string, q: nat)
    requires IsLinkPath(path) && path[2..] in links && NamesAlike(links) && q <= |path|
    ensures q < |path| ==> (Present(dirs, links, path[..q]) <==> path[..q] in NAMELESS)
  {
  }

  lemma PartsArePlainList(dirs: Dirs, parent: Id)
    requires LowersOver(dirs, parent).Some? && ':' !in dirs[parent].link.value
    ensures forall e :: e in LowersOver(dirs, parent).value ==> ':' !in e
  {
    if dirs[parent].lower.Some? {
      PartsArePlain(dirs[parent].lower.value, ':');
    }
  }

  /** A list over a parent of which nothing leads nowhere leads nowhere itself. */
  lemma RepairMends(dirs: Dirs, links: Links, id: Id, parent: Id)
    requires OwnLink(dirs, links, parent) && !Broken(dirs, links, parent) && |Listed(dirs[parent].lower)| < MAX_DEPTH
    ensures !Broken(Repaired(dirs, links, id, parent), links, id)
  {
    var dirs' := Repaired(dirs, links, id, parent);
    if Broken(dirs, links, id) {
      ListReadsBack(dirs, parent);
      OverIsPresent(dirs, links, parent);
      assert Entries(dirs'[id].lower) == LowersOver(dirs, parent).value;
    }
  }

  lemma OverIsPresent(dirs: Dirs, links: Links, parent: Id)
    requires OwnLink(dirs, links, parent) && !Broken(dirs, links, parent) && LowersOver(dirs, parent).Some?
    ensures forall e :: e in LowersOver(dirs, parent).value ==> Present(dirs, links, e)
  {
    var lower := dirs[parent].lower;
    forall e | e in Listed(lower)
      ensures Present(dirs, links, e)
    {
      assert e in Entries(LowerFile(dirs, parent));
    }
  }

  /** Two places agree on whether the list stacks right if they agree on what its entries lead to. */
  lemma StacksSame(dirs: Dirs, links: Links, dirs': Dirs, links': Links, lowers: seq<string>, ancestors: seq<Id>)
    requires forall e, a :: e in lowers && a in ancestors ==>
      (Leads(links, e, a) && a in dirs <==> Leads(links', e, a) && a in dirs')
    ensures Stacks(dirs, links, lowers, ancestors) <==> Stacks(dirs', links', lowers, ancestors)
  {
    if |lowers| == |ancestors| {
      forall i | 0 <= i < |lowers|
        ensures var a := ancestors[|ancestors| - 1 - i];
          Leads(links, lowers[i], a) && a in dirs <==> Leads(links', lowers[i], a) && a in dirs'
      {
        assert lowers[i] in lowers && ancestors[|ancestors| - 1 - i] in ancestors;
      }
    }
  }

  // ---- The chain of layers of an image ----

  /** No two layers of the chain are the same, every link leads to a layer, and the names of the
      links to be made are new: they occur nowhere. */
  ghost predicate Ready(dirs: Dirs, links: Links, ids: seq<Id>, names: seq<string>, known: set<Id>) {
    && Distinct(ids) && "" !in ids && "" !in dirs && |names| == |ids| && Distinct(names)
    && (forall n :: n in links ==> links[n] in dirs)
    && (forall n :: n in names ==> n !in links && ':' !in n)
    && forall k, n :: 0 <= k < |ids| && ids[k] in known && n in names ==>
      LinkPath(n) !in Listed(LowerFile(dirs, ids[k]))
  }

  /** What the commit does not touch before layer `k` has its turn. */
  ghost predicate Progress(dirs0: Dirs, links0: Links, dirs: Dirs, links: Links, ids: seq<Id>, names: seq<string>,
                           k: nat)
    requires k <= |ids| == |names|
  {
    && (forall id :: id in dirs0 ==> id in dirs)
    && (forall id :: id in dirs && id !in ids[..k] ==> id in dirs0 && dirs[id] == dirs0[id])
    && (forall n :: n in links0 ==> n in links && links[n] == links0[n])
    && (forall n :: n in links && n !in links0 ==> n in names[..k] && links[n] in ids[..k])
  }

  /** Before the commit: the layer stacks right, or its repair or making will see to it. */
  ghost predicate Fit(dirs: Dirs, links: Links, ids: seq<Id>, known: set<Id>, writable: set<Id>, k: nat)
    requires k < |ids|
  {
    if ids[k] in known then
      && OwnLink(dirs, links, ids[k])
      && (Stacked(dirs, links, ids, k) || (0 < k <= MAX_DEPTH && Broken(dirs, links, ids[k]) && ids[k] in writable))
    else k == 0 ==> LowerFile(dirs, ids[k]) == None
  }

  ghost predicate AllFit(dirs: Dirs, links: Links, ids: seq<Id>, known: set<Id>, writable: set<Id>, k: nat)
    requires k <= |ids|
  {
    forall j :: 0 <= j < k ==> Fit(dirs, links, ids, known, writable, j)
  }

  ghost predicate AllStacked(dirs: Dirs, links: Links, ids: seq<Id>, k: nat)
    requires k <= |ids|
  {
    forall j :: 0 <= j < k ==> Stacked(dirs, links, ids, j)
  }

  /** A driver without any layer is ready for any image, and every layer of it is fit. */
  lemma EmptyIsReady(ids: seq<Id>, names: seq<string>)
    requires Distinct(ids) && "" !in ids && |names| == |ids| && Distinct(names) && forall n :: n in names ==> ':' !in n
    ensures Ready(map[], map[], ids, names, {}) && AllFit(map[], map[], ids, {}, set id | id in ids, |ids|)
  {
  }

  /** When a layer has its turn, its file, its link and what they lead to are as in the beginning. */
  lemma SameAtTurn(dirs0: Dirs, links0: Links, dirs: Dirs, links: Links, ids: seq<Id>, names: seq<string>,
                   known: set<Id>, k: nat)
    requires Ready(dirs0, links0, ids, names, known) && k < |ids| && ids[k] in known
    requires Progress(dirs0, links0, dirs, links, ids, names, k)
    ensures LowerFile(dirs, ids[k]) == LowerFile(dirs0, ids[k])
    ensures OwnLink(dirs, links, ids[k]) <==> OwnLink(dirs0, links0, ids[k])
    ensures Broken(dirs, links, ids[k]) <==> Broken(dirs0, links0, ids[k])
    ensures Stacked(dirs, links, ids, k) <==> Stacked(dirs0, links0, ids, k)
  {
    assert ids[k] !in ids[..k];
    var lower := LowerFile(dirs0, ids[k]);
    forall e | e in Entries(lower)
      ensures IsLinkPath(e) ==> e[2..] !in names
      ensures Present(dirs, links, e) <==> Present(dirs0, links0, e)
    {
      assert IsLinkPath(e) ==> e == LinkPath(e[2..]);
      assert e !in NAMELESS ==> e in Listed(lower);
    }
    if ids[k] in dirs0 {
      forall e, a | e in Listed(lower) && a in ids[..k]
        ensures Leads(links0, e, a) && a in dirs0 <==> Leads(links, e, a) && a in dirs
      {
        assert e in Entries(lower);
      }
      StacksSame(dirs0, links0, dirs, links, Listed(lower), ids[..k]);
    }
  }

  // ---- One turn of the commit ----

  /** The turn of layer `k`: nothing but its directory changes, and at most a link to it is added. */
  ghost predicate OneTurn(dirs: Dirs, links: Links, dirs': Dirs, links': Links, id: Id, name: string) {
    && dirs' - {id} == dirs - {id}
    && (links' == links || (name !in links && links' == links[name := id]))
  }

  lemma EarlierSame(dirs: Dirs, links: Links, dirs': Dirs, links': Links, ids: seq<Id>, names: seq<string>, k: nat,
                    j: nat)
    requires Distinct(ids) && j < k < |ids| == |names| && OneTurn(dirs, links, dirs', links', ids[k], names[k])
    ensures Stacked(dirs', links', ids, j) <==> Stacked(dirs, links, ids, j)
    ensures LowerFile(dirs', ids[j]) == LowerFile(dirs, ids[j])
    ensures OwnLink(dirs', links', ids[j]) <==> OwnLink(dirs, links, ids[j])
  {
    SameElsewhere(dirs, dirs', ids[k], ids[j]);
    forall e: string, a | a in ids[..j]
      ensures Leads(links', e, a) && a in dirs' <==> Leads(links, e, a) && a in dirs
    {
      SameElsewhere(dirs, dirs', ids[k], a);
    }
    if ids[j] in dirs {
      StacksSame(dirs, links, dirs', links', Listed(dirs[ids[j]].lower), ids[..j]);
    }
  }

  lemma ProgressNext(dirs0: Dirs, links0: Links, dirs: Dirs, links: Links, dirs': Dirs, links': Links, ids: seq<Id>,
                     names: seq<string>, k: nat)
    requires k < |ids| == |names| && Progress(dirs0, links0, dirs, links, ids, names, k)
    requires OneTurn(dirs, links, dirs', links', ids[k], names[k]) && ids[k] in dirs'
    ensures Progress(dirs0, links0, dirs', links', ids, names, k + 1)
  {
    assert ids[..k + 1] == ids[..k] + [ids[k]] && names[..k + 1] == names[..k] + [names[k]];
    forall id | id != ids[k]
      ensures id in dirs <==> id in dirs'
      ensures id in dirs ==> dirs'[id] == dirs[id]
    {
      SameElsewhere(dirs, dirs', ids[k], id);
    }
  }

  /** The first `k` layers had their turns: any number of them all stack right exactly if before the
      commit they all were fit. */
  ghost predicate Settled(dirs0: Dirs, links0: Links, dirs: Dirs, links: Links, ids: seq<Id>, known: set<Id>,
                          writable: set<Id>, k: nat)
    requires k <= |ids|
  {
    forall j :: 0 <= j <= k ==> (AllStacked(dirs, links, ids, j) <==> AllFit(dirs0, links0, ids, known, writable, j))
  }

  lemma SettledStays(dirs0: Dirs, links0: Links, dirs: Dirs, links: Links, dirs': Dirs, links': Links, ids: seq<Id>,
                     names: seq<string>, known: set<Id>, writable: set<Id>, k: nat)
    requires Distinct(ids) && k < |ids| == |names| && Settled(dirs0, links0, dirs, links, ids, known, writable, k)
    requires OneTurn(dirs, links, dirs', links', ids[k], names[k])
    ensures Settled(dirs0, links0, dirs', links', ids, known, writable, k)
  {
    forall j | 0 <= j < k
      ensures Stacked(dirs', links', ids, j) <==> Stacked(dirs, links, ids, j)
    {
      EarlierSame(dirs, links, dirs', links', ids, names, k, j);
    }
    forall j | 0 <= j <= k
      ensures AllStacked(dirs', links', ids, j) <==> AllStacked(dirs, links, ids, j)
    {
    }
  }

  lemma SettledNext(dirs0: Dirs, links0: Links, dirs: Dirs, links: Links, ids: seq<Id>, known: set<Id>,
                    writable: set<Id>, k: nat)
    requires k < |ids| && Settled(dirs0, links0, dirs, links, ids, known, writable, k)
    requires AllStacked(dirs, links, ids, k) ==>
      (Stacked(dirs, links, ids, k) <==> Fit(dirs0, links0, ids, known, writable, k))
    ensures Settled(dirs0, links0, dirs, links, ids, known, writable, k + 1)
  {
    assert AllStacked(dirs, links, ids, k + 1) <==> AllStacked(dirs, links, ids, k) && Stacked(dirs, links, ids, k);
    assert AllFit(dirs0, links0, ids, known, writable, k + 1) <==>
      AllFit(dirs0, links0, ids, known, writable, k) && Fit(dirs0, links0, ids, known, writable, k);
  }

  lemma ReuseSettles(dirs0: Dirs, links0: Links, dirs: Dirs, links: Links, dirs': Dirs, ids: seq<Id>,
                     names: seq<string>,
                     known: set<Id>, writable: set<Id>, k: nat)
    requires Ready(dirs0, links0, ids, names, known) && k < |ids| && ids[k] in known
    requires Progress(dirs0, links0, dirs, links, ids, names, k) && "" !in dirs
    requires Settled(dirs0, links0, dirs, links, ids, known, writable, k)
    requires dirs' == if ids[k] in writable then Repaired(dirs, links, ids[k], Parent(ids, k)) else dirs
    ensures Settled(dirs0, links0, dirs', links, ids, known, writable, k + 1)
  {
    SettledStays(dirs0, links0, dirs, links, dirs', links, ids, names, known, writable, k);
    SameAtTurn(dirs0, links0, dirs, links, ids, names, known, k);
    if AllStacked(dirs', links, ids, k) {
      if k > 0 {
        assert Stacked(dirs', links, ids, k - 1);
        EarlierSame(dirs, links, dirs', links, ids, names, k, k - 1);
      }
      if OwnLink(dirs, links, ids[k]) {
        RepairStacksIff(dirs, links, ids, k);
      }
    }
    SettledNext(dirs0, links0, dirs', links, ids, known, writable, k);
  }

  /** A layer just made, with the lowers that its parent gives. */
  lemma MakeSettles(dirs0: Dirs, links0: Links, dirs: Dirs, links: Links, dirs': Dirs, links': Links, ids: seq<Id>,
                    names: seq<string>, known: set<Id>, writable: set<Id>, k: nat)
    requires Ready(dirs0, links0, ids, names, known) && k < |ids| && ids[k] !in known
    requires Progress(dirs0, links0, dirs, links, ids, names, k)
    requires Settled(dirs0, links0, dirs, links, ids, known, writable, k)
    requires OneTurn(dirs, links, dirs', links', ids[k], names[k]) && OwnLink(dirs', links', ids[k])
    requires if k == 0 then dirs'[ids[k]].lower == LowerFile(dirs, ids[k])
             else LowersOver(dirs, ids[k - 1]).Some?
                  && dirs'[ids[k]].lower == Some(Join(LowersOver(dirs, ids[k - 1]).value, ':'))
    ensures Settled(dirs0, links0, dirs', links', ids, known, writable, k + 1)
  {
    SettledStays(dirs0, links0, dirs, links, dirs', links', ids, names, known, writable, k);
    if AllStacked(dirs', links', ids, k) && k > 0 {
      assert Stacked(dirs', links', ids, k - 1);
      SameElsewhere(dirs, dirs', ids[k], ids[k - 1]);
      StacksOver(dirs', links', ids, k);
      ListReadsBack(dirs', ids[k - 1]);
    }
    SettledNext(dirs0, links0, dirs', links', ids, known, writable, k);
  }

  // ---- Nothing leads nowhere ----

  /** All layers up to `k` have their own links, if the store knew them, no file failed to be
      written, the base listed nothing that leads nowhere, and no list is too long for a child. */
  ghost predicate Mendable(dirs0: Dirs, links0: Links, dirs: Dirs, ids: seq<Id>, known: set<Id>, writable: set<Id>,
                           k: nat)
    requires k < |ids|
  {
    && (forall j :: 0 <= j <= k ==> ids[j] in writable && (ids[j] in known ==> OwnLink(dirs0, links0, ids[j])))
    && !Broken(dirs0, links0, ids[0])
    && forall j :: 0 <= j < k ==> |Listed(LowerFile(dirs, ids[j]))| < MAX_DEPTH
  }

  ghost predicate Mended(dirs0: Dirs, links0: Links, dirs: Dirs, links: Links, ids: seq<Id>, known: set<Id>,
                         writable: set<Id>, k: nat)
    requires k <= |ids|
  {
    forall j :: 0 <= j < k && Mendable(dirs0, links0, dirs, ids, known, writable, j) ==>
      OwnLink(dirs, links, ids[j]) && !Broken(dirs, links, ids[j])
  }

  lemma PresenceGrows(dirs: Dirs, links: Links, dirs': Dirs, links': Links, id: Id)
    requires dirs.Keys <= dirs'.Keys && forall n :: n in links ==> n in links' && links'[n] == links[n]
    requires LowerFile(dirs', id) == LowerFile(dirs, id) && !Broken(dirs, links, id)
    ensures !Broken(dirs', links', id)
  {
  }

  lemma MendedNext(dirs0: Dirs, links0: Links, dirs: Dirs, links: Links, dirs': Dirs, links': Links, ids: seq<Id>,
                   names: seq<string>, known: set<Id>, writable: set<Id>, k: nat)
    requires Distinct(ids) && k < |ids| == |names| && Mended(dirs0, links0, dirs, links, ids, known, writable, k)
    requires OneTurn(dirs, links, dirs', links', ids[k], names[k]) && dirs.Keys <= dirs'.Keys
    requires Mendable(dirs0, links0, dirs', ids, known, writable, k) ==>
               OwnLink(dirs', links', ids[k]) && !Broken(dirs', links', ids[k])
    ensures Mended(dirs0, links0, dirs', links', ids, known, writable, k + 1)
  {
    forall j | 0 <= j < k && Mendable(dirs0, links0, dirs', ids, known, writable, j)
      ensures OwnLink(dirs', links', ids[j]) && !Broken(dirs', links', ids[j])
    {
      forall i | 0 <= i <= j
        ensures LowerFile(dirs', ids[i]) == LowerFile(dirs, ids[i])
      {
        EarlierSame(dirs, links, dirs', links', ids, names, k, i);
      }
      assert Mendable(dirs0, links0, dirs, ids, known, writable, j);
      EarlierSame(dirs, links, dirs', links', ids, names, k, j);
      PresenceGrows(dirs, links, dirs', links', ids[j]);
    }
  }

  /** What is known of the parent when a mendable layer has its turn. */
  lemma ParentMended(dirs0: Dirs, links0: Links, dirs: Dirs, links: Links, dirs': Dirs, links': Links, ids: seq<Id>,
                     names: seq<string>, known: set<Id>, writable: set<Id>, k: nat)
    requires Distinct(ids) && 0 < k < |ids| == |names| && Mended(dirs0, links0, dirs, links, ids, known, writable, k)
    requires OneTurn(dirs, links, dirs', links', ids[k], names[k])
    requires Mendable(dirs0, links0, dirs', ids, known, writable, k)
    ensures OwnLink(dirs, links, ids[k - 1]) && !Broken(dirs, links, ids[k - 1])
    ensures |Listed(dirs[ids[k - 1]].lower)| < MAX_DEPTH
  {
    forall i | 0 <= i < k
      ensures LowerFile(dirs', ids[i]) == LowerFile(dirs, ids[i])
    {
      EarlierSame(dirs, links, dirs', links', ids, names, k, i);
    }
    assert Mendable(dirs0, links0, dirs, ids, known, writable, k - 1);
  }

  lemma ReuseMends(dirs0: Dirs, links0: Links, dirs: Dirs, links: Links, dirs': Dirs, ids: seq<Id>, names: seq<string>,
                   known: set<Id>, writable: set<Id>, k: nat)
    requires Ready(dirs0, links0, ids, names, known) && k < |ids| && ids[k] in known
    requires Progress(dirs0, links0, dirs, links, ids, names, k) && "" !in dirs
    requires Mended(dirs0, links0, dirs, links, ids, known, writable, k)
    requires dirs' == if ids[k] in writable then Repaired(dirs, links, ids[k], Parent(ids, k)) else dirs
    ensures Mended(dirs0, links0, dirs', links, ids, known, writable, k + 1)
  {
    if Mendable(dirs0, links0, dirs', ids, known, writable, k) {
      assert ids[k] in writable && OwnLink(dirs0, links0, ids[k]);
      SameAtTurn(dirs0, links0, dirs, links, ids, names, known, k);
      if k > 0 {
        ParentMended(dirs0, links0, dirs, links, dirs', links, ids, names, known, writable, k);
        RepairMends(dirs, links, ids[k], ids[k - 1]);
      }
    }
    MendedNext(dirs0, links0, dirs, links, dirs', links, ids, names, known, writable, k);
  }

  lemma MakeMends(dirs0: Dirs, links0: Links, dirs: Dirs, links: Links, dirs': Dirs, links': Links, ids: seq<Id>,
                  names: seq<string>, known: set<Id>, writable: set<Id>, k: nat)
    requires Ready(dirs0, links0, ids, names, known) && k < |ids| && ids[k] !in known
    requires Progress(dirs0, links0, dirs, links, ids, names, k)
    requires Mended(dirs0, links0, dirs, links, ids, known, writable, k)
    requires OneTurn(dirs, links, dirs', links', ids[k], names[k]) && OwnLink(dirs', links', ids[k])
    requires if k == 0 then dirs'[ids[k]].lower == LowerFile(dirs, ids[k])
             else LowersOver(dirs, ids[k - 1]).Some?
                  && dirs'[ids[k]].lower == Some(Join(LowersOver(dirs, ids[k - 1]).value, ':'))
    ensures Mended(dirs0, links0, dirs', links', ids, known, writable, k + 1)
  {
    assert dirs.Keys <= dirs'.Keys by {
      forall id | id in dirs && id != ids[k]
        ensures id in dirs'
      {
        SameElsewhere(dirs, dirs', ids[k], id);
      }
    }
    if Mendable(dirs0, links0, dirs', ids, known, writable, k) {
      if k > 0 {
        ParentMended(dirs0, links0, dirs, links, dirs', links', ids, names, known, writable, k);
        ListReadsBack(dirs, ids[k - 1]);
        OverIsPresent(dirs, links, ids[k - 1]);
      } else {
        PresenceGrows(dirs0, links0, dirs', links', ids[0]);
      }
    }
    MendedNext(dirs0, links0, dirs, links, dirs', links', ids, names, known, writable, k);
  }

  class Driver {
    var dirs: Dirs
    var links: Links

    constructor (dirs: Dirs, links: Links)
      ensures this.dirs == dirs && this.links == links
    {
      this.dirs, this.links := dirs, links;
    }

    method GetLower(parent: Id) returns (lower: Option<string>)
      ensures lower == match LowersOver(dirs, parent) case None => None case Some(lowers) => Some(Join(lowers, ':'))
      ensures lower != Some("")
    {
      if parent !in dirs || dirs[parent].link.None? {
        return None;
      }
      var lowers := [LinkPath(dirs[parent].link.value)];
      if dirs[parent].lower.Some? {
        lowers := lowers + Split(dirs[parent].lower.value, ':');
      }
      if |lowers| > MAX_DEPTH {
        return None;
      }
      lower := Some(Join(lowers, ':'));
    }

    method TryRepairLowers(id: Id, parent: Id, canWrite: bool) returns (ok: bool)
      modifies this`dirs
      ensures dirs == if canWrite then Repaired(old(dirs), links, id, parent) else old(dirs)
      ensures ok <==> !Broken(old(dirs), links, id) || (LowersOver(old(dirs), parent).Some? && canWrite)
    {
      var lowers := Entries(LowerFile(dirs, id));
      for i := 0 to |lowers|
        invariant forall e :: e in lowers[..i] ==> Present(dirs, links, e)
        invariant dirs == old(dirs)
      {
        if !Present(dirs, links, lowers[i]) {
          assert Broken(dirs, links, id);
          var lower := GetLower(parent);
          if lower.None? {
            return false;
          }
          if lower.value != "" {
            if !canWrite {
              return false;
            }
            dirs := dirs[id := dirs[id].(lower := lower)];
          }
          return true;
        }
        assert lowers[..i + 1] == lowers[..i] + [lowers[i]];
      }
      assert lowers[..|lowers|] == lowers;
      ok := true;
    }

    /** A directory left from before is taken over; one that cannot be completed is removed. */
    method Create(id: Id, parent: Id, name: string, canWrite: bool) returns (ok: bool)
      requires id != parent
      modifies this
      ensures ok <==> name !in old(links) && canWrite && (parent == "" || LowersOver(old(dirs), parent).Some?)
      ensures dirs - {id} == old(dirs) - {id}
      // What a failure leaves: nothing is done without the parent; otherwise the directory goes, even
      // one left from before, and the link stays.
      ensures !ok && parent != "" && parent !in old(dirs) ==> dirs == old(dirs) && links == old(links)
      ensures !ok && (parent == "" || parent in old(dirs)) ==>
        id !in dirs && links == if name in old(links) then old(links) else old(links)[name := id]
      ensures ok ==> links == old(links)[name := id] && id in dirs && dirs[id].link == Some(name)
      ensures ok && parent == "" ==> dirs[id].lower == LowerFile(old(dirs), id)
      ensures ok && parent != "" ==> dirs[id].lower == Some(Join(LowersOver(old(dirs), parent).value, ':'))
    {
      if parent != "" && parent !in dirs {
        return false;
      }
      if id !in dirs {
        dirs := dirs[id := Dir(None, None)];
      }
      ok := CreateLink(id, name, canWrite);
      if ok && parent != "" {
        var lower := GetLower(parent);
        ok := lower.Some?;
        if ok && lower.value != "" {
          dirs := dirs[id := dirs[id].(lower := lower)];
        }
      }
      if !ok {
        dirs := dirs - {id};
      }
    }

    method CreateLink(id: Id, name: string, canWrite: bool) returns (ok: bool)
      requires id in dirs
      modifies this
      ensures ok <==> name !in old(links) && canWrite
      ensures links == if name in old(links) then old(links) else old(links)[name := id]
      ensures dirs == if ok then old(dirs)[id := old(dirs)[id].(link := Some(name))] else old(dirs)
    {
      if name in links {
        return false;
      }
      links := links[name := id];
      if canWrite {
        dirs := dirs[id := dirs[id].(link := Some(name))];
      }
      ok := canWrite;
    }

    /** How far the commit is: what it has not come to yet is untouched, and what it has dealt with
        is as right, and as whole, as it could be made. */
    ghost predicate InOrder(dirs0: Dirs, links0: Links, ids: seq<Id>, names: seq<string>, known: set<Id>,
                            writable: set<Id>, k: nat)
      requires k <= |ids|
      reads this
    {
      && Ready(dirs0, links0, ids, names, known) && "" !in dirs
      && Progress(dirs0, links0, dirs, links, ids, names, k)
      && Settled(dirs0, links0, dirs, links, ids, known, writable, k)
      && Mended(dirs0, links0, dirs, links, ids, known, writable, k)
    }

    /** A layer of the image that the store knows is reused; a failure to repair it is only logged. */
    method Reuse(ids: seq<Id>, k: nat, ghost names: seq<string>, ghost known: set<Id>, ghost writable: set<Id>,
                 canWrite: bool,
                 ghost dirs0: Dirs, ghost links0: Links)
      requires k < |ids| && ids[k] in known && canWrite == (ids[k] in writable)
      modifies this`dirs
      ensures old(InOrder(dirs0, links0, ids, names, known, writable, k)) ==>
        InOrder(dirs0, links0, ids, names, known, writable, k + 1)
    {
      ghost var before := dirs;
      var _ := TryRepairLowers(ids[k], Parent(ids, k), canWrite);
      if old(InOrder(dirs0, links0, ids, names, known, writable, k)) {
        assert before.Keys == dirs.Keys;
        assert dirs - {ids[k]} == before - {ids[k]};
        ReuseSettles(dirs0, links0, before, links, dirs, ids, names, known, writable, k);
        ReuseMends(dirs0, links0, before, links, dirs, ids, names, known, writable, k);
        ReuseProgress(dirs0, links0, before, links, dirs, ids, names, k);
      }
    }

    /** One that it does not know is made. */
    method Make(ids: seq<Id>, k: nat, names: seq<string>, ghost known: set<Id>, ghost writable: set<Id>, canWrite: bool,
                ghost dirs0: Dirs, ghost links0: Links)
      returns (ok: bool)
      requires k < |ids| == |names| && Distinct(ids) && "" !in ids
      requires ids[k] !in known && canWrite == (ids[k] in writable)
      modifies this
      ensures old(InOrder(dirs0, links0, ids, names, known, writable, k)) ==>
        && Settled(dirs0, links0, dirs, links, ids, known, writable, k)
        && (ok ==> InOrder(dirs0, links0, ids, names, known, writable, k + 1))
        && (k <= MAX_DEPTH && ids[k] in writable && AllFit(dirs0, links0, ids, known, writable, k) ==> ok)
    {
      ghost var dirs1, links1 := dirs, links;
      ghost var inOrder := InOrder(dirs0, links0, ids, names, known, writable, k);
      if inOrder {
        MakeWorks(dirs0, links0, dirs, links, ids, names, known, writable, k);
      }
      ok := Create(ids[k], Parent(ids, k), names[k], canWrite);
      if inOrder {
        SettledStays(dirs0, links0, dirs1, links1, dirs, links, ids, names, known, writable, k);
        if ok {
          ProgressNext(dirs0, links0, dirs1, links1, dirs, links, ids, names, k);
          MakeSettles(dirs0, links0, dirs1, links1, dirs, links, ids, names, known, writable, k);
          MakeMends(dirs0, links0, dirs1, links1, dirs, links, ids, names, known, writable, k);
        }
      }
    }

    /** The layers of an image from the base up; `done` of them are dealt with. */
    method Commit(ids: seq<Id>, names: seq<string>, known: set<Id>, writable: set<Id>) returns (done: nat)
      requires |names| == |ids| && Distinct(ids) && "" !in ids
      modifies this
      ensures done <= |ids|
      ensures Ready(old(dirs), old(links), ids, names, known) ==>
        // However links and files changed before: the layers up to any dealt with stack over exactly
        // their ancestors if and only if they all were fit.
        && Settled(old(dirs), old(links), dirs, links, ids, known, writable, done)
        // When the commit comes through, nothing listed leads nowhere.
        && (done == |ids| ==> Mended(old(dirs), old(links), dirs, links, ids, known, writable, done))
        // It stops only at a layer that is to be made and cannot be.
        && (done < |ids| ==>
              && ids[done] !in known
              && !(done <= MAX_DEPTH && ids[done] in writable
                   && AllFit(old(dirs), old(links), ids, known, writable, done)))
    {
      ghost var ready := Ready(dirs, links, ids, names, known);
      done := 0;
      while done < |ids|
        invariant done <= |ids|
        invariant ready ==> InOrder(old(dirs), old(links), ids, names, known, writable, done)
      {
        if ids[done] in known {
          Reuse(ids, done, names, known, writable, ids[done] in writable, old(dirs), old(links));
        } else {
          var ok := Make(ids, done, names, known, writable, ids[done] in writable, old(dirs), old(links));
          if !ok {
            return;
          }
        }
        done := done + 1;
      }
    }
  }

  lemma ReuseProgress(dirs0: Dirs, links0: Links, dirs: Dirs, links: Links, dirs': Dirs, ids: seq<Id>,
                      names: seq<string>, k: nat)
    requires k < |ids| == |names| && Progress(dirs0, links0, dirs, links, ids, names, k)
    requires dirs' - {ids[k]} == dirs - {ids[k]} && dirs'.Keys == dirs.Keys
    ensures Progress(dirs0, links0, dirs', links, ids, names, k + 1)
  {
    assert ids[..k + 1] == ids[..k] + [ids[k]] && names[..k + 1] == names[..k] + [names[k]];
    forall id | id != ids[k]
      ensures id in dirs <==> id in dirs'
      ensures id in dirs ==> dirs'[id] == dirs[id]
    {
      SameElsewhere(dirs, dirs', ids[k], id);
    }
  }

  /** Nothing stops the making of a layer over layers that all were fit. */
  lemma MakeWorks(dirs0: Dirs, links0: Links, dirs: Dirs, links: Links, ids: seq<Id>, names: seq<string>,
                  known: set<Id>,
                  writable: set<Id>, k: nat)
    requires Ready(dirs0, links0, ids, names, known) && k < |ids|
    requires Progress(dirs0, links0, dirs, links, ids, names, k)
    requires Settled(dirs0, links0, dirs, links, ids, known, writable, k)
    ensures names[k] !in links && ':' !in names[k]
    ensures AllFit(dirs0, links0, ids, known, writable, k) && 0 < k <= MAX_DEPTH ==> LowersOver(dirs, ids[k - 1]).Some?
  {
    assert names[k] in names;
    if AllFit(dirs0, links0, ids, known, writable, k) && 0 < k <= MAX_DEPTH {
      assert AllStacked(dirs, links, ids, k);
      StacksOver(dirs, links, ids, k);
    }
  }
}
