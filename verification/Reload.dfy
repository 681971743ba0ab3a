/** The section walk of src/config.c: which tunnels exist after a configuration was read. */
module Reload {
  import opened Words
  import opened Config

  /** Only the names matter here; new tunnels go to the head of the list. `server` is the mode
      known so far, and `last` the section just handled. */
  datatype Walk = Walk(tunnels: seq<string>, last: Option<string>, server: bool)

  predicate IsGeneral(section: string) { section == "general" }

  predicate IsFilters(section: string) { |section| >= 7 && section[..7] == "filters" }

  predicate NamesTunnel(section: string) { !IsGeneral(section) && !IsFilters(section) }

  /** The settings whose absence ends the program. */
  predicate Complete(bs: seq<Binding>, section: string, server: bool) {
    if IsGeneral(section) then Lookup(bs, section, "mode").Some? && Lookup(bs, section, "password").Some?
    else if server then Lookup(bs, section, "bindport").Some?
    else Lookup(bs, section, "remotehost").Some? && Lookup(bs, section, "remoteport").Some?
  }

  /** One entry of the configuration list; an entry of the section just handled is skipped. None is
      the fatal exit. */
  function Enter(bs: seq<Binding>, w: Walk, section: string): (o: Option<Walk>) {
    if w.last == Some(section) then Some(w)
    else if IsFilters(section) then Some(w.(last := Some(section)))
    else if !Complete(bs, section, w.server) then None
    else if IsGeneral(section) then
      Some(w.(last := Some(section), server := w.server || Lookup(bs, section, "mode") == Some("server")))
    else
      Some(w.(last := Some(section), tunnels := if section in w.tunnels then w.tunnels else [section] + w.tunnels))
  }

  function WalkAll(bs: seq<Binding>, todo: seq<Binding>, w: Walk): (o: Option<Walk>)
    decreases |todo|
  {
    if todo == [] then Some(w)
    else
      match Enter(bs, w, todo[0].section)
      case None => None
      case Some(v) => WalkAll(bs, todo[1..], v)
  }

  predicate Listed(bs: seq<Binding>, section: string) {
    exists i :: 0 <= i < |bs| && bs[i].section == section
  }

  /** Tunnels that no section names any more are dropped, except at the first reading. */
  function Prune(bs: seq<Binding>, names: seq<string>): (kept: seq<string>) {
    if names == [] then []
    else (if Listed(bs, names[0]) then [names[0]] else []) + Prune(bs, names[1..])
  }

  function Reconcile(bs: seq<Binding>, names: seq<string>, first: bool): (o: Option<seq<string>>) {
    match WalkAll(bs, bs, Walk(names, None, false))
    case None => None
    case Some(w) => Some(if first then w.tunnels else Prune(bs, w.tunnels))
  }

  // ---- What is left ----

  ghost predicate Unique(names: seq<string>) {
    forall i, j :: 0 <= i < j < |names| ==> names[i] != names[j]
  }

  /** Every tunnel was there before or is named by a section seen; every section seen that names a
      tunnel has one. */
  ghost predicate Covers(w: Walk, before: seq<string>, seen: seq<Binding>) {
    && Unique(w.tunnels)
    && (forall n :: n in w.tunnels <==> n in before || (Listed(seen, n) && NamesTunnel(n)))
    && (w.last.Some? ==> Listed(seen, w.last.value))
  }

  lemma ListedSnoc(seen: seq<Binding>, b: Binding, n: string)
    ensures Listed(seen + [b], n) <==> Listed(seen, n) || b.section == n
  {
    if Listed(seen, n) {
      var i :| 0 <= i < |seen| && seen[i].section == n;
      assert (seen + [b])[i].section == n;
    }
    assert (seen + [b])[|seen|] == b;
  }

  lemma EnterCovers(bs: seq<Binding>, w: Walk, before: seq<string>, seen: seq<Binding>, b: Binding)
    requires Covers(w, before, seen) && Enter(bs, w, b.section).Some?
    ensures Covers(Enter(bs, w, b.section).value, before, seen + [b])
  {
    hide Listed, Complete;
    forall n
      ensures Listed(seen + [b], n) <==> Listed(seen, n) || b.section == n
    {
      ListedSnoc(seen, b, n);
    }
  }

  lemma {:induction false} WalkCovers(bs: seq<Binding>, todo: seq<Binding>, w: Walk,
                                      before: seq<string>, seen: seq<Binding>)
    requires Covers(w, before, seen) && WalkAll(bs, todo, w).Some?
    ensures Covers(WalkAll(bs, todo, w).value, before, seen + todo)
    decreases |todo|
  {
    hide Covers, Enter;
    if todo == [] {
      assert seen + todo == seen;
    } else {
      EnterCovers(bs, w, before, seen, todo[0]);
      WalkCovers(bs, todo[1..], Enter(bs, w, todo[0].section).value, before, seen + [todo[0]]);
      assert seen + [todo[0]] + todo[1..] == seen + todo;
    }
  }

  lemma {:induction false} PruneKeeps(bs: seq<Binding>, names: seq<string>)
    ensures forall n :: n in Prune(bs, names) <==> n in names && Listed(bs, n)
    ensures Unique(names) ==> Unique(Prune(bs, names))
  {
    if names != [] {
      PruneKeeps(bs, names[1..]);
      assert names == [names[0]] + names[1..];
      if Unique(names) {
        assert forall i :: 0 <= i < |names[1..]| ==> names[1..][i] == names[i + 1] != names[0];
      }
    }
  }

  // ---- When a reading ends the program ----

  predicate Has(bs: seq<Binding>, section: string, name: string) {
    exists k :: 0 <= k < |bs| && bs[k].section == section && bs[k].name == name
  }

  /** A general section has come before entry i, and the mode is "server". */
  ghost predicate ServerBefore(bs: seq<Binding>, i: nat)
    requires i <= |bs|
  {
    Lookup(bs, "general", "mode") == Some("server") && exists k :: 0 <= k < i && bs[k].section == "general"
  }

  /** The section of entry i lacks what the program does not go without. */
  ghost predicate Lacks(bs: seq<Binding>, i: nat)
    requires i < |bs|
  {
    var section := bs[i].section;
    if section == "general" then !Has(bs, section, "mode") || !Has(bs, section, "password")
    else if |section| >= 7 && section[..7] == "filters" then false
    else if ServerBefore(bs, i) then !Has(bs, section, "bindport")
    else !Has(bs, section, "remotehost") || !Has(bs, section, "remoteport")
  }

  lemma LookupHas(bs: seq<Binding>, section: string, name: string)
    ensures Lookup(bs, section, name).Some? <==> Has(bs, section, name)
  {
    LookupFirst(bs, section, name);
  }

  lemma GeneralIsNoFilter()
    ensures !IsFilters("general")
  {
    assert "general"[..7][0] == 'g' && "filters"[0] == 'f';
  }

  lemma LacksIsIncomplete(bs: seq<Binding>, i: nat)
    requires i < |bs|
    ensures Lacks(bs, i) <==> !IsFilters(bs[i].section) && !Complete(bs, bs[i].section, ServerBefore(bs, i))
  {
    var section := bs[i].section;
    GeneralIsNoFilter();
    LookupHas(bs, section, "mode");
    LookupHas(bs, section, "password");
    LookupHas(bs, section, "bindport");
    LookupHas(bs, section, "remotehost");
    LookupHas(bs, section, "remoteport");
  }

  /** The walk has handled the first i entries. */
  ghost predicate Reached(bs: seq<Binding>, w: Walk, i: nat)
    requires i <= |bs|
  {
    && w.last == (if i == 0 then None else Some(bs[i - 1].section))
    && w.server == ServerBefore(bs, i)
    && forall k :: 0 <= k < i ==> !Lacks(bs, k)
  }

  lemma ServerNext(bs: seq<Binding>, i: nat)
    requires i < |bs|
    ensures ServerBefore(bs, i + 1) <==>
            ServerBefore(bs, i) || (bs[i].section == "general" && Lookup(bs, "general", "mode") == Some("server"))
  {
  }

  /** An entry of the section just handled lacks nothing that the entry before it did not lack. */
  lemma SameSectionSame(bs: seq<Binding>, i: nat)
    requires 0 < i < |bs| && bs[i - 1].section == bs[i].section
    ensures Lacks(bs, i) <==> Lacks(bs, i - 1)
  {
    ServerNext(bs, i - 1);
  }

  lemma {:induction false} WalkEnds(bs: seq<Binding>, w: Walk, i: nat)
    requires i <= |bs| && Reached(bs, w, i)
    ensures WalkAll(bs, bs[i..], w).None? <==> exists k :: i <= k < |bs| && Lacks(bs, k)
    decreases |bs| - i
  {
    hide Lacks, Complete, ServerBefore;
    if i < |bs| {
      assert bs[i..][0] == bs[i] && bs[i..][1..] == bs[i + 1..];
      LacksIsIncomplete(bs, i);
      ServerNext(bs, i);
      GeneralIsNoFilter();
      if i > 0 && bs[i - 1].section == bs[i].section {
        SameSectionSame(bs, i);
        ServerNext(bs, i - 1);
      }
      if Enter(bs, w, bs[i].section).Some? {
        var v := Enter(bs, w, bs[i].section).value;
        WalkEnds(bs, v, i + 1);
      }
    }
  }

  /** A reading ends the program if and only if some section lacks what it needs: mode and password in
      general; in a tunnel section the bind port if a general section with mode server came before it,
      and otherwise the remote host and port. */
  lemma EndsIff(bs: seq<Binding>, names: seq<string>, first: bool)
    ensures Reconcile(bs, names, first).None? <==> exists i :: 0 <= i < |bs| && Lacks(bs, i)
  {
    hide Lacks, WalkAll;
    assert bs[0..] == bs;
    assert !ServerBefore(bs, 0);
    WalkEnds(bs, Walk(names, None, false), 0);
  }

  // ---- What a reading leaves ----

  /** After any reading that does not end the program, the tunnel names are unique and are exactly
      the sections other than "general" and those beginning with "filters"; at the first reading
      because the list starts empty, at a reload whatever it held. */
  lemma Reconciled(bs: seq<Binding>, names: seq<string>, first: bool)
    requires Unique(names) && (forall i :: 0 <= i < |names| ==> NamesTunnel(names[i]))
    requires first ==> names == []
    requires Reconcile(bs, names, first).Some?
    ensures var after := Reconcile(bs, names, first).value;
            && Unique(after)
            && (forall n :: n in after <==> Listed(bs, n) && NamesTunnel(n))
  {
    hide Listed, NamesTunnel;
    assert forall n :: !Listed([], n) by { NothingListed(); }
    WalkCovers(bs, bs, Walk(names, None, false), names, []);
    assert [] + bs == bs;
    PruneKeeps(bs, WalkAll(bs, bs, Walk(names, None, false)).value.tunnels);
  }

  // ---- The order of the list ----

  /** The first entry of a section, or the length of the configuration. */
  function FirstAt(bs: seq<Binding>, section: string): (i: nat)
    ensures i <= |bs| && (i < |bs| ==> bs[i].section == section)
    ensures forall k :: 0 <= k < i ==> bs[k].section != section
  {
    if bs == [] || bs[0].section == section then 0 else 1 + FirstAt(bs[1..], section)
  }

  /** The section that comes last in the configuration is first in the list. */
  ghost predicate LatestFirst(bs: seq<Binding>, names: seq<string>) {
    forall i, j :: 0 <= i < j < |names| ==> FirstAt(bs, names[i]) > FirstAt(bs, names[j])
  }

  /** What the first i entries added stands before what was there. */
  ghost predicate Stacked(bs: seq<Binding>, w: Walk, before: seq<string>, i: nat) {
    && |before| <= |w.tunnels| && w.tunnels[|w.tunnels| - |before|..] == before
    && var added := w.tunnels[..|w.tunnels| - |before|];
       LatestFirst(bs, added) && forall k :: 0 <= k < |added| ==> FirstAt(bs, added[k]) < i
  }

  lemma FirstHere(bs: seq<Binding>, i: nat)
    requires i < |bs| && !Listed(bs[..i], bs[i].section)
    ensures FirstAt(bs, bs[i].section) == i
  {
    assert forall k :: 0 <= k < i ==> bs[..i][k] == bs[k];
  }

  lemma PushStacks(bs: seq<Binding>, w: Walk, before: seq<string>, i: nat, n: string, v: Walk)
    requires Stacked(bs, w, before, i) && FirstAt(bs, n) == i && v.tunnels == [n] + w.tunnels
    ensures Stacked(bs, v, before, i + 1)
  {
    hide FirstAt;
    var k := |w.tunnels| - |before|;
    assert v.tunnels[k + 1..] == before;
    assert v.tunnels[..k + 1] == [n] + w.tunnels[..k];
  }

  lemma KeepStacks(bs: seq<Binding>, w: Walk, before: seq<string>, i: nat, v: Walk)
    requires Stacked(bs, w, before, i) && v.tunnels == w.tunnels
    ensures Stacked(bs, v, before, i + 1)
  {
  }

  lemma EnterStacks(bs: seq<Binding>, w: Walk, before: seq<string>, i: nat)
    requires i < |bs| && Covers(w, before, bs[..i]) && Stacked(bs, w, before, i)
    requires Enter(bs, w, bs[i].section).Some?
    ensures Stacked(bs, Enter(bs, w, bs[i].section).value, before, i + 1)
  {
    hide Complete, Stacked, Unique, FirstAt, Listed, IsFilters;
    var n := bs[i].section;
    var v := Enter(bs, w, n).value;
    if w.last == Some(n) || !NamesTunnel(n) || n in w.tunnels {
      KeepStacks(bs, w, before, i, v);
    } else {
      FirstHere(bs, i);
      PushStacks(bs, w, before, i, n, v);
    }
  }

  lemma {:induction false} WalkStacks(bs: seq<Binding>, w: Walk, before: seq<string>, i: nat)
    requires i <= |bs| && Covers(w, before, bs[..i]) && Stacked(bs, w, before, i)
    requires WalkAll(bs, bs[i..], w).Some?
    ensures Stacked(bs, WalkAll(bs, bs[i..], w).value, before, |bs|)
    decreases |bs| - i
  {
    hide Covers, Stacked, Enter;
    if i < |bs| {
      assert bs[i..][0] == bs[i] && bs[i..][1..] == bs[i + 1..] && bs[..i] + [bs[i]] == bs[..i + 1];
      EnterCovers(bs, w, before, bs[..i], bs[i]);
      EnterStacks(bs, w, before, i);
      WalkStacks(bs, Enter(bs, w, bs[i].section).value, before, i + 1);
    }
  }

  lemma {:induction false} PruneSplits(bs: seq<Binding>, xs: seq<string>, ys: seq<string>)
    ensures Prune(bs, xs + ys) == Prune(bs, xs) + Prune(bs, ys)
  {
    if xs == [] {
      assert xs + ys == ys;
    } else {
      assert (xs + ys)[1..] == xs[1..] + ys;
      PruneSplits(bs, xs[1..], ys);
    }
  }

  lemma {:induction false} PruneNothing(bs: seq<Binding>, names: seq<string>)
    requires forall k :: 0 <= k < |names| ==> Listed(bs, names[k])
    ensures Prune(bs, names) == names
  {
    if names != [] {
      PruneNothing(bs, names[1..]);
    }
  }

  lemma UniqueParts(xs: seq<string>, ys: seq<string>)
    requires Unique(xs + ys)
    ensures forall n :: n in xs <==> n in xs + ys && n !in ys
  {
    forall i, j | 0 <= i < |xs| && 0 <= j < |ys|
      ensures xs[i] != ys[j]
    {
      assert (xs + ys)[i] == xs[i] && (xs + ys)[|xs| + j] == ys[j];
    }
  }

  lemma StackSplits(bs: seq<Binding>, w: Walk, before: seq<string>, i: nat) returns (added: seq<string>)
    requires Stacked(bs, w, before, i)
    ensures w.tunnels == added + before && LatestFirst(bs, added)
  {
    hide LatestFirst, FirstAt;
    added := w.tunnels[..|w.tunnels| - |before|];
  }

  lemma WalkAdds(bs: seq<Binding>, names: seq<string>) returns (w: Walk, added: seq<string>)
    requires Unique(names) && WalkAll(bs, bs, Walk(names, None, false)).Some?
    ensures WalkAll(bs, bs, Walk(names, None, false)) == Some(w) && w.tunnels == added + names
    ensures LatestFirst(bs, added)
    ensures forall n :: n in added <==> n !in names && Listed(bs, n) && NamesTunnel(n)
  {
    hide Listed, NamesTunnel, WalkAll, LatestFirst, Stacked, FirstAt;
    var start := Walk(names, None, false);
    assert bs[..0] == [] && bs[0..] == bs && [] + bs == bs;
    assert forall n :: !Listed([], n) by { NothingListed(); }
    WalkCovers(bs, bs, start, names, []);
    NothingStacked(bs, names);
    WalkStacks(bs, start, names, 0);
    w := WalkAll(bs, bs, start).value;
    added := StackSplits(bs, w, names, |bs|);
    UniqueParts(added, names);
  }

  /** A reading puts the new tunnels before the old ones, the section that comes last first, and leaves
      the old ones that stay in their order. */
  lemma NewFirst(bs: seq<Binding>, names: seq<string>, first: bool) returns (added: seq<string>)
    requires Unique(names) && Reconcile(bs, names, first).Some?
    ensures Reconcile(bs, names, first) == Some(added + if first then names else Prune(bs, names))
    ensures LatestFirst(bs, added)
    ensures forall n :: n in added <==> n !in names && Listed(bs, n) && NamesTunnel(n)
  {
    hide Listed, NamesTunnel, WalkAll, LatestFirst, Prune, FirstAt, Unique;
    var w;
    w, added := WalkAdds(bs, names);
    PruneSplits(bs, added, names);
    PruneNothing(bs, added);
  }

  lemma NothingStacked(bs: seq<Binding>, names: seq<string>)
    ensures Stacked(bs, Walk(names, None, false), names, 0)
  {
  }

  lemma NothingListed()
    ensures forall n :: !Listed([], n)
  {
  }

  /** Over any sequence of reloads after the first reading. */
  lemma {:induction false} EveryReload(first: seq<Binding>, later: seq<seq<Binding>>, names: seq<string>)
    requires Reconcile(first, [], true).Some? && Reloads(Reconcile(first, [], true).value, later) == Some(names)
    ensures var bs := if later == [] then first else later[|later| - 1];
            Unique(names) && forall n :: n in names <==> Listed(bs, n) && NamesTunnel(n)
  {
    hide Listed, NamesTunnel;
    Reconciled(first, [], true);
    ReloadsKeep(first, Reconcile(first, [], true).value, later, names);
  }

  function Reloads(names: seq<string>, later: seq<seq<Binding>>): (o: Option<seq<string>>)
    decreases |later|
  {
    if later == [] then Some(names)
    else
      match Reconcile(later[0], names, false)
      case None => None
      case Some(next) => Reloads(next, later[1..])
  }

  lemma {:induction false} ReloadsKeep(bs: seq<Binding>, names: seq<string>, later: seq<seq<Binding>>,
                                       after: seq<string>)
    requires Unique(names) && forall n :: n in names <==> Listed(bs, n) && NamesTunnel(n)
    requires Reloads(names, later) == Some(after)
    ensures var final := if later == [] then bs else later[|later| - 1];
            Unique(after) && forall n :: n in after <==> Listed(final, n) && NamesTunnel(n)
    decreases |later|
  {
    hide Listed, NamesTunnel, Reconcile;
    if later != [] {
      Reconciled(later[0], names, false);
      ReloadsKeep(later[0], Reconcile(later[0], names, false).value, later[1..], after);
    }
  }
}
