/** Wi-Fi changes step by step (os-base/agent/network_agent.py over os-base/agent/wpa.py) and the access
    point's undo (os-base/agent/ap_agent.py). How the daemon answers each command of a call is an input,
    the call's plan, so results are stated over it. The caller holds the radio throughout. */
module WifiConfig {
  import opened Basics
  import opened Supplicant

  /** The commands of one call; each is sent at most once. */
  datatype Ask =
    | Find | Add | Name | Key | EnableChosen | SelectChosen | Reload
    | EnableList | EnableMode(id: nat) | EnableOne(id: nat)
    | PreferList | PreferRead(id: nat) | PreferSet
    | SaveList | SaveMode(id: nat) | SaveDrop(id: nat) | SaveFile
    | Forgotten
    | ApAdd | ApField(k: nat) | ApSelect
    | UndoList | UndoMode(id: nat) | UndoDrop(id: nat)

  type Plan = Ask -> Reply

  /** No command of the call raises. */
  ghost predicate Faultless(plan: Plan) {
    forall a :: plan(a) == Obeyed
  }

  // ── what a plan makes of the tables ──────────────────────────────────────────────

  function Sent(d: Daemon, c: Command, r: Reply): Daemon {
    if r.Refused? then d else Exec(d, c)
  }

  /** The blocks that are not access points. */
  function Stripped(c: Config): Config {
    map id | id in c && !c[id].ap :: c[id]
  }

  /** Saving reads every block's mode and drops every access point. */
  ghost predicate Strips(plan: Plan, c: Config) {
    plan(SaveList).Obeyed? && forall id :: id in c ==> Strippable(plan, c, id)
  }

  predicate Strippable(plan: Plan, c: Config, id: nat)
    requires id in c
  {
    plan(SaveMode(id)).Obeyed? && (c[id].ap ==> plan(SaveDrop(id)).Obeyed?)
  }

  /** A network whose mode could be read and whose ENABLE was carried out; access points never. */
  predicate GetsEnabled(plan: Plan, c: Config, id: nat)
    requires id in c
  {
    !c[id].ap && plan(EnableMode(id)).Obeyed? && !plan(EnableOne(id)).Refused?
  }

  function AllEnabled(plan: Plan, c: Config): Config {
    map id | id in c :: c[id].(enabled := c[id].enabled || GetsEnabled(plan, c, id))
  }

  /** Every priority could be read. */
  ghost predicate Ranks(plan: Plan, c: Config) {
    plan(PreferList).Obeyed? && forall id :: id in c ==> plan(PreferRead(id)).Obeyed?
  }

  ghost predicate Known(c: Config, ssid: string) {
    exists id :: id in c && c[id].ssid == ssid
  }

  /** What a connect writes into a block: a password when given, no key for a new network without one,
      and an existing network's key untouched otherwise. */
  function Credentials(b: Block, added: bool, ssid: string, psk: Option<string>): Block {
    var named := b.(ssid := ssid);
    match psk
    case Some(key) => named.(psk := key)
    case None => if added then named.(keyless := true) else named
  }

  function Named(c: Config, chosen: nat, added: bool, ssid: string, psk: Option<string>): Config
    requires chosen in c
  {
    c[chosen := Credentials(c[chosen], added, ssid, psk)]
  }

  /** What a connect makes of the chosen block. */
  function Written(before: Config, chosen: nat, ssid: string, psk: Option<string>): Block {
    if chosen in before then Credentials(before[chosen], false, ssid, psk) else Credentials(EMPTY, true, ssid, psk)
  }

  /** The table a connect sets up: the chosen block written and enabled, all others disabled. */
  function Chosen(before: Config, chosen: nat, ssid: string, psk: Option<string>): Config {
    OnlyEnabled(before[chosen := Written(before, chosen, ssid, psk)], chosen)
  }

  /** What is saved of the chosen network, field by field: its name; a password when one was given; without
      one a new network is open and a known one keeps its credentials. */
  ghost predicate SavedCredentials(before: Config, chosen: nat, saved: Block, ssid: string, psk: Option<string>) {
    && saved.ssid == ssid && !saved.ap && saved.enabled
    && (psk.Some? ==> saved.psk == psk.value)
    && (psk.Some? ==> saved.keyless == (chosen in before && before[chosen].keyless))
    && (psk.None? && chosen !in before ==> saved.psk == "" && saved.keyless)
    && (psk.None? && chosen in before ==> saved.psk == before[chosen].psk && saved.keyless == before[chosen].keyless)
  }

  /** Everything up to association is carried out and answered. */
  ghost predicate SetsUp(plan: Plan, c: Config, ssid: string, psk: Option<string>) {
    && plan(Find).Obeyed? && (!Known(c, ssid) ==> plan(Add).Obeyed?) && plan(Name).Obeyed?
    && (psk.Some? || !Known(c, ssid) ==> plan(Key).Obeyed?)
    && plan(EnableChosen).Obeyed? && plan(SelectChosen).Obeyed?
  }

  /** Everything after association up to SAVE_CONFIG itself is answered; a failed SET_NETWORK priority
      is only logged. */
  ghost predicate ReachesSave(plan: Plan, c: Config) {
    plan(EnableList).Obeyed? && Ranks(plan, c) && Strips(plan, c)
  }

  /** The block's priority is above every other block's. */
  ghost predicate StrictlyHighest(c: Config, chosen: nat) {
    chosen in c && forall id :: id in c && id != chosen ==> c[id].priority < c[chosen].priority
  }

  /** Every other network's priority is below p. */
  ghost predicate Ahead(c: Config, chosen: nat, p: int) {
    forall id :: id in c && id != chosen && !c[id].ap ==> c[id].priority < p
  }

  /** Alike but for being enabled and for the priority. */
  predicate AlikeBlock(a: Block, b: Block) {
    a == b.(enabled := a.enabled, priority := a.priority)
  }

  /** Networks other than the chosen one are still there, credentials and priority untouched. */
  ghost predicate OthersKept(before: Config, after: Config, chosen: nat) {
    && after.Keys + {chosen} == Stripped(before).Keys + {chosen}
    && forall id :: id in after && id != chosen ==> id in before && after[id] == before[id].(enabled := after[id].enabled)
  }

  /** What SAVE_CONFIG leaves on disk after a connect: the chosen network as written, every other as it
      was, no access point. The chosen one is strictly preferred exactly if the priority command was
      carried out or it was ahead anyway; a network other than the chosen one is enabled exactly if its
      own commands were answered and carried out. */
  ghost predicate SavedAs(plan: Plan, before: Config, disk: Config, chosen: nat, written: Block) {
    && NoAp(disk) && OthersKept(before, disk, chosen)
    && (chosen in disk <==> !written.ap)
    && (chosen in disk ==> AlikeBlock(disk[chosen], written) && disk[chosen].enabled)
    && (chosen in disk ==>
          (StrictlyHighest(disk, chosen) <==> !plan(PreferSet).Refused? || Ahead(before, chosen, written.priority)))
    && (forall id :: id in disk && id != chosen ==> (disk[id].enabled <==> GetsEnabled(plan, disk, id)))
  }

  /** A block some Rollback step removed: the one just added, or an access point whose mode could be read. */
  predicate Removes(plan: Plan, c: Config, added: Option<nat>, id: nat)
    requires id in c
  {
    (added == Some(id) || c[id].ap) && !plan(UndoDrop(id)).Refused?
  }

  ghost predicate UndoReads(plan: Plan, c: Config, added: Option<nat>) {
    plan(UndoList).Obeyed? && forall id :: id in c && added != Some(id) ==> plan(UndoMode(id)).Obeyed?
  }

  /** Whatever the reload does, the blocks can be listed, read and removed. */
  ghost predicate UndoWorks(plan: Plan) {
    plan(UndoList).Obeyed? && forall id :: plan(UndoMode(id)).Obeyed? && !plan(UndoDrop(id)).Refused?
  }

  /** The live table before the reload of a rollback. */
  ghost function Undone(plan: Plan, c: Config, added: Option<nat>): Config {
    if UndoReads(plan, c, added) then map id | id in c && !Removes(plan, c, added, id) :: c[id] else c
  }

  /** The fields of an access-point block, in the order they are set. */
  function Fields(id: nat, ssid: string, psk: string): (cs: seq<Command>)
    ensures |cs| == 7
  {
    [SetSsid(id, ssid), SetApMode(id), SetFixed(id, "frequency"), SetFixed(id, "key_mgmt"),
     SetFixed(id, "proto"), SetFixed(id, "pairwise"), SetPsk(id, psk)]
  }

  function ApBlock(ssid: string, psk: string): Block {
    Block(ssid, true, psk, false, 0, true)
  }

  class Wpa {
    var daemon: Daemon

    method Send(c: Command, r: Reply) returns (ok: bool)
      modifies this
      ensures daemon == Sent(old(daemon), c, r) && ok == r.Obeyed?
    {
      if !r.Refused? {
        daemon := Exec(daemon, c);
      }
      ok := r.Obeyed?;
    }

    /** The live blocks' ids. */
    method ListNetworks() returns (ids: seq<nat>)
      ensures forall id :: id in ids <==> id in daemon.live
      ensures Distinct(ids)
    {
      ids := [];
      var rest := daemon.live.Keys;
      while rest != {}
        invariant rest <= daemon.live.Keys && Distinct(ids)
        invariant forall id :: id in ids <==> id in daemon.live && id !in rest
        decreases rest
      {
        var id :| id in rest;
        ids := ids + [id];
        rest := rest - {id};
      }
    }

    /** The first block of that name. */
    method FindNetwork(ssid: string) returns (found: Option<nat>)
      ensures found.Some? <==> Known(daemon.live, ssid)
      ensures found.Some? ==> found.value in daemon.live && daemon.live[found.value].ssid == ssid
    {
      var ids := ListNetworks();
      for k := 0 to |ids|
        invariant forall j :: 0 <= j < k ==> daemon.live[ids[j]].ssid != ssid
      {
        if daemon.live[ids[k]].ssid == ssid {
          return Some(ids[k]);
        }
      }
      found := None;
    }

    /** Persist the live blocks, dropping access-point ones first; any failure before SAVE_CONFIG leaves
        the file alone. */
    method SaveConfig(plan: Plan) returns (ok: bool)
      modifies this
      ensures ok <==> Strips(plan, old(daemon.live)) && plan(SaveFile).Obeyed?
      ensures daemon.disk == if Strips(plan, old(daemon.live)) && !plan(SaveFile).Refused?
                             then Stripped(old(daemon.live)) else old(daemon.disk)
      ensures Stripped(daemon.live) == Stripped(old(daemon.live))
      ensures Strips(plan, old(daemon.live)) ==> daemon.live == Stripped(old(daemon.live))
    {
      if !plan(SaveList).Obeyed? {
        return false;
      }
      var ids := ListNetworks();
      ghost var before := daemon.live;
      assert daemon.live == Without(before, ids[..0]);
      for k := 0 to |ids|
        invariant daemon.disk == old(daemon.disk)
        invariant forall j :: 0 <= j < k ==> Strippable(plan, before, ids[j])
        invariant daemon.live == Without(before, ids[..k])
      {
        StripOne(before, ids, k);
        ok := StripNetwork(ids[k], plan);
        if !ok {
          StrippedWithout(before, ids[..k]);
          return;
        }
      }
      assert ids[..|ids|] == ids;
      WithoutAll(before, ids);
      ok := Send(Save, plan(SaveFile));
    }

    /** One block of the loop; false when a command raised. */
    method StripNetwork(id: nat, plan: Plan) returns (ok: bool)
      requires id in daemon.live
      modifies this
      ensures ok <==> Strippable(plan, old(daemon.live), id)
      ensures daemon.disk == old(daemon.disk) && Stripped(daemon.live) == Stripped(old(daemon.live))
      ensures ok ==> daemon.live == if old(daemon.live)[id].ap then old(daemon.live) - {id} else old(daemon.live)
    {
      ok := plan(SaveMode(id)).Obeyed?;
      if ok && daemon.live[id].ap {
        ok := Send(Remove(id), plan(SaveDrop(id)));
      }
    }

    /** Re-enable every saved network but access points; a network whose commands raise is passed over. */
    method EnableAll(plan: Plan) returns (ok: bool)
      modifies this
      ensures ok == plan(EnableList).Obeyed?
      ensures daemon == if ok then old(daemon).(live := AllEnabled(plan, old(daemon.live))) else old(daemon)
    {
      ok := plan(EnableList).Obeyed?;
      if !ok {
        return;
      }
      var ids := ListNetworks();
      ghost var before := daemon.live;
      for k := 0 to |ids|
        invariant daemon.disk == old(daemon.disk) && daemon.live.Keys == before.Keys
        invariant forall id :: id in before ==>
          daemon.live[id] == if id in ids[..k] then AllEnabled(plan, before)[id] else before[id]
      {
        assert ids[..k + 1] == ids[..k] + [ids[k]];
        EnableOneNetwork(ids[k], plan);
      }
      assert ids[..|ids|] == ids;
      assert daemon.live == AllEnabled(plan, before);
    }

    /** One network of the loop. */
    method EnableOneNetwork(id: nat, plan: Plan)
      requires id in daemon.live
      modifies this
      ensures daemon.disk == old(daemon.disk)
      ensures daemon.live == old(daemon.live)[id := AllEnabled(plan, old(daemon.live))[id]]
    {
      if plan(EnableMode(id)).Obeyed? && !daemon.live[id].ap {
        var sent := Send(Enable(id), plan(EnableOne(id)));
      }
    }

    /** Raise the chosen network above all others; a failure of the SET_NETWORK is swallowed. */
    method PreferNetwork(chosen: nat, plan: Plan) returns (ok: bool)
      requires chosen in daemon.live
      modifies this
      ensures ok <==> Ranks(plan, old(daemon.live))
      ensures daemon.disk == old(daemon.disk)
      ensures ok && !plan(PreferSet).Refused? ==>
        && StrictlyHighest(daemon.live, chosen)
        && daemon.live == old(daemon.live)[chosen := old(daemon.live)[chosen].(priority := daemon.live[chosen].priority)]
      ensures !ok || plan(PreferSet).Refused? ==> daemon == old(daemon)
    {
      ok := plan(PreferList).Obeyed?;
      if !ok {
        return;
      }
      var ids := ListNetworks();
      var highest := 0;
      for k := 0 to |ids|
        invariant forall j :: 0 <= j < k ==> daemon.live[ids[j]].priority <= highest && plan(PreferRead(ids[j])).Obeyed?
      {
        if !plan(PreferRead(ids[k])).Obeyed? {
          return false;
        }
        var p := daemon.live[ids[k]].priority;
        highest := if p > highest then p else highest;
      }
      var sent := Send(SetPriority(chosen, highest + 1), plan(PreferSet));
    }

    /** Reload the file over whatever was tried; a failure is logged only. */
    method Restore(plan: Plan)
      modifies this
      ensures daemon.disk == old(daemon.disk)
      ensures daemon.live == if plan(Reload).Refused? then old(daemon.live) else daemon.disk
    {
      var sent := Send(Reconfigure, plan(Reload));
    }

    /** The saved network of that name, or a new empty one. */
    method Choose(ssid: string, plan: Plan) returns (ok: bool, chosen: nat, added: bool)
      modifies this
      ensures ok <==> plan(Find).Obeyed? && (!Known(old(daemon.live), ssid) ==> plan(Add).Obeyed?)
      ensures daemon.disk == old(daemon.disk)
      ensures ok ==> (added <==> !Known(old(daemon.live), ssid))
      ensures ok && !added ==>
        daemon == old(daemon) && chosen in daemon.live && daemon.live[chosen].ssid == ssid
      ensures ok && added ==>
        chosen !in old(daemon.live) && daemon.live == old(daemon.live)[chosen := EMPTY]
    {
      chosen, added := 0, false;
      ok := plan(Find).Obeyed?;
      if !ok {
        return;
      }
      var found := FindNetwork(ssid);
      if found.Some? {
        return true, found.value, false;
      }
      chosen := FreshId(daemon.live);
      added := true;
      ok := Send(AddNetwork(chosen), plan(Add));
    }

    /** Write the name and the key into the chosen block, enable it and select it. */
    method Configure(chosen: nat, added: bool, ssid: string, psk: Option<string>, plan: Plan) returns (ok: bool)
      requires chosen in daemon.live
      modifies this
      ensures ok <==> plan(Name).Obeyed? && (psk.Some? || added ==> plan(Key).Obeyed?)
                      && plan(EnableChosen).Obeyed? && plan(SelectChosen).Obeyed?
      ensures daemon.disk == old(daemon.disk)
      ensures ok ==> daemon.live == OnlyEnabled(Named(old(daemon.live), chosen, added, ssid, psk), chosen)
    {
      ghost var before := daemon.live;
      ok := Send(SetSsid(chosen, ssid), plan(Name));
      if !ok {
        return;
      }
      if psk.Some? {
        ok := Send(SetPsk(chosen, psk.value), plan(Key));
      } else if added {
        ok := Send(SetKeyless(chosen), plan(Key));
      }
      if !ok {
        return;
      }
      assert daemon.live == Named(before, chosen, added, ssid, psk);
      ok := Activate(chosen, plan);
    }

    method Activate(chosen: nat, plan: Plan) returns (ok: bool)
      requires chosen in daemon.live
      modifies this
      ensures ok <==> plan(EnableChosen).Obeyed? && plan(SelectChosen).Obeyed?
      ensures daemon.disk == old(daemon.disk)
      ensures ok ==> daemon.live == OnlyEnabled(old(daemon.live), chosen)
    {
      ghost var before := daemon.live;
      ok := Send(Enable(chosen), plan(EnableChosen));
      if !ok {
        return;
      }
      ok := Send(Select(chosen), plan(SelectChosen));
      SelectEnables(before, chosen);
    }

    /** After association: enable every network, prefer the chosen one, persist. */
    method Persist(chosen: nat, plan: Plan) returns (saved: bool)
      requires chosen in daemon.live
      modifies this
      ensures saved <==> ReachesSave(plan, old(daemon.live)) && plan(SaveFile).Obeyed?
      ensures ReachesSave(plan, old(daemon.live)) && !plan(SaveFile).Refused? ==>
        daemon.live == daemon.disk && Promoted(plan, old(daemon.live), daemon.disk, chosen)
      ensures !ReachesSave(plan, old(daemon.live)) || plan(SaveFile).Refused? ==> daemon.disk == old(daemon.disk)
    {
      ghost var before := daemon.live;
      saved := EnableAll(plan);
      if !saved {
        return;
      }
      ghost var enabled := daemon.live;
      saved := PreferNetwork(chosen, plan);
      SameReads(plan, before, enabled, daemon.live);
      if !saved {
        return;
      }
      ghost var ranked := daemon.live;
      saved := SaveConfig(plan);
      if Strips(plan, ranked) {
        PromotedBy(plan, before, enabled, ranked, chosen);
      }
    }

    /** Associate with a network and persist only on success; associates is whether the station reaches
        the connected state in time. */
    method Connect(ssid: string, psk: Option<string>, present: bool, encodable: bool, associates: bool, plan: Plan)
      returns (success: bool, ghost chosen: nat)
      modifies this
      ensures success <==> present && encodable && SetsUp(plan, old(daemon.live), ssid, psk) && associates
      ensures !present || !encodable ==> daemon == old(daemon)
      ensures !success ==> daemon.disk == old(daemon.disk)
      ensures !success && present && encodable && !plan(Reload).Refused? ==> daemon.live == daemon.disk
      ensures success ==>
        if Known(old(daemon.live), ssid) then chosen in old(daemon.live) && old(daemon.live)[chosen].ssid == ssid
        else chosen !in old(daemon.live)
      ensures success && Persists(plan, old(daemon.live), chosen, ssid, psk) ==>
        && daemon.live == daemon.disk
        && SavedAs(plan, old(daemon.live), daemon.disk, chosen, Written(old(daemon.live), chosen, ssid, psk))
      ensures success && Persists(plan, old(daemon.live), chosen, ssid, psk) ==>
        if chosen in old(daemon.live) && old(daemon.live)[chosen].ap then chosen !in daemon.disk
        else chosen in daemon.disk && SavedCredentials(old(daemon.live), chosen, daemon.disk[chosen], ssid, psk)
      ensures success && !Persists(plan, old(daemon.live), chosen, ssid, psk) ==> daemon.disk == old(daemon.disk)
    {
      success, chosen := false, 0;
      if !present || !encodable {
        return;
      }
      ghost var before := daemon.live;
      var ok, id, added := Choose(ssid, plan);
      chosen := id;
      if ok {
        ok := Configure(id, added, ssid, psk, plan);
      }
      if !ok {
        Restore(plan);
        return;
      }
      SetUpIsChosen(before, id, added, ssid, psk);
      success := associates;
      if success {
        var saved := Persist(id, plan);
        if Persists(plan, before, id, ssid, psk) {
          SavedFrom(plan, before, daemon.disk, id, ssid, psk);
        }
      } else {
        Restore(plan);
      }
    }

    /** Remove a saved network and persist the change; a failure is reported, not undone. */
    method Forget(ssid: string, present: bool, plan: Plan) returns (success: bool, ghost gone: Option<nat>)
      modifies this
      ensures gone.Some? <==> present && plan(Find).Obeyed? && Known(old(daemon.live), ssid)
      ensures gone.Some? ==> gone.value in old(daemon.live) && old(daemon.live)[gone.value].ssid == ssid
      ensures gone.None? ==> !success && daemon == old(daemon)
      ensures gone.Some? ==>
        var rest := old(daemon.live) - {gone.value};
        var reaches := plan(Forgotten).Obeyed? && Strips(plan, rest);
        && (success <==> reaches && plan(SaveFile).Obeyed?)
        && (reaches ==> daemon.live == Stripped(rest))
        && daemon.disk == if reaches && !plan(SaveFile).Refused? then Stripped(rest) else old(daemon.disk)
    {
      success, gone := false, None;
      if !present || !plan(Find).Obeyed? {
        return;
      }
      var found := FindNetwork(ssid);
      gone := found;
      if found.None? {
        return;
      }
      var ok := Send(Remove(found.value), plan(Forgotten));
      if ok {
        success := SaveConfig(plan);
      }
    }

    /** The ids of the access-point blocks, with the one this start added; reading may raise. */
    method AccessPointIds(added: Option<nat>, plan: Plan) returns (ok: bool, ids: seq<nat>)
      ensures ok <==> UndoReads(plan, daemon.live, added)
      ensures ok ==> forall id :: id in ids <==> added == Some(id) || (id in daemon.live && daemon.live[id].ap)
    {
      ids := if added.Some? then [added.value] else [];
      ok := plan(UndoList).Obeyed?;
      if !ok {
        return;
      }
      var nets := ListNetworks();
      for k := 0 to |nets|
        invariant forall j :: 0 <= j < k && added != Some(nets[j]) ==> plan(UndoMode(nets[j])).Obeyed?
        invariant forall id :: id in ids <==> added == Some(id) || (id in nets[..k] && daemon.live[id].ap)
      {
        assert nets[..k + 1] == nets[..k] + [nets[k]];
        if nets[k] !in ids {
          if !plan(UndoMode(nets[k])).Obeyed? {
            return false, ids;
          }
          if daemon.live[nets[k]].ap {
            ids := ids + [nets[k]];
          }
        }
      }
      assert nets[..|nets|] == nets;
    }

    /** Remove blocks one by one; a command that raises is only noted. */
    method RemoveAll(ids: seq<nat>, plan: Plan)
      modifies this
      ensures daemon.disk == old(daemon.disk)
      ensures daemon.live ==
        map id | id in old(daemon.live) && !(id in ids && !plan(UndoDrop(id)).Refused?) :: old(daemon.live)[id]
    {
      ghost var before := daemon.live;
      for k := 0 to |ids|
        invariant daemon.disk == old(daemon.disk)
        invariant daemon.live == map id | id in before && !(id in ids[..k] && !plan(UndoDrop(id)).Refused?) :: before[id]
      {
        assert ids[..k + 1] == ids[..k] + [ids[k]];
        var ok := Send(Remove(ids[k]), plan(UndoDrop(ids[k])));
      }
      assert ids[..|ids|] == ids;
    }

    /** Undo an access point: its blocks first, then the reload, each step tried whatever the others did. */
    method Rollback(added: Option<nat>, plan: Plan)
      modifies this
      ensures daemon.disk == old(daemon.disk)
      ensures daemon.live ==
        if plan(Reload).Refused? then Undone(plan, old(daemon.live), added) else daemon.disk
    {
      var ok, ids := AccessPointIds(added, plan);
      if ok {
        RemoveAll(ids, plan);
        assert daemon.live == Undone(plan, old(daemon.live), added);
      }
      Restore(plan);
    }

    /** Raise an access point: a new block, its fields, then the switch. A failure on the way, or a radio
        that does not become one in time, rolls back. */
    method StartAccessPoint(ssid: string, psk: string, becomesAp: bool, plan: Plan) returns (ok: bool, ghost net: nat)
      modifies this
      ensures daemon.disk == old(daemon.disk)
      ensures ok <==> plan(ApAdd).Obeyed? && (forall k :: 0 <= k < 7 ==> plan(ApField(k)).Obeyed?)
                      && plan(ApSelect).Obeyed? && becomesAp
      ensures ok ==> net !in old(daemon.live)
      ensures ok ==> daemon.live == OnlyEnabled(old(daemon.live)[net := ApBlock(ssid, psk)], net)
      ensures !ok && !plan(Reload).Refused? ==> daemon.live == daemon.disk
      ensures !plan(ApAdd).Obeyed? && plan(Reload).Refused? ==>
        daemon.live == Undone(plan, if plan(ApAdd).Lost? then old(daemon.live)[net := EMPTY] else old(daemon.live), None)
      ensures !ok && UndoWorks(plan) && NoAp(daemon.disk) ==> NoAp(daemon.live)
    {
      var id := FreshId(daemon.live);
      net := id;
      ok := Send(AddNetwork(id), plan(ApAdd));
      var added := if ok then Some(id) else None;
      if ok {
        ok := SetFields(id, ssid, psk, plan);
      }
      if ok {
        ok := Send(Select(id), plan(ApSelect));
      }
      if ok {
        assert daemon.live == OnlyEnabled(old(daemon.live)[net := ApBlock(ssid, psk)], net);
        ok := becomesAp;
      }
      if !ok {
        Rollback(added, plan);
      }
    }

    /** The loop over the fields of the new block. */
    method SetFields(id: nat, ssid: string, psk: string, plan: Plan) returns (ok: bool)
      requires id in daemon.live && daemon.live[id] == EMPTY
      modifies this
      ensures daemon.disk == old(daemon.disk)
      ensures ok <==> forall k :: 0 <= k < 7 ==> plan(ApField(k)).Obeyed?
      ensures ok ==> daemon.live == old(daemon.live)[id := ApBlock(ssid, psk).(enabled := false)]
    {
      var fields := Fields(id, ssid, psk);
      for k := 0 to 7
        invariant daemon.disk == old(daemon.disk)
        invariant forall j :: 0 <= j < k ==> plan(ApField(j)).Obeyed?
        invariant daemon.live == old(daemon.live)[id := Dressed(ssid, psk, k)]
      {
        ok := Send(fields[k], plan(ApField(k)));
        if !ok {
          return;
        }
      }
      ok := true;
    }
  }

  /** The new block after the first k fields. */
  function Dressed(ssid: string, psk: string, k: nat): Block {
    EMPTY.(ssid := if k >= 1 then ssid else "", ap := k >= 2, psk := if k >= 7 then psk else "")
  }

  /** The table before SAVE_CONFIG, against the one after association. */
  ghost predicate Promoted(plan: Plan, before: Config, disk: Config, chosen: nat)
    requires chosen in before
  {
    && disk.Keys == Stripped(before).Keys
    && (forall id :: id in disk && id != chosen ==> disk[id] == AllEnabled(plan, before)[id])
    && (chosen in disk ==> AlikeBlock(disk[chosen], before[chosen])
                           && disk[chosen].enabled == AllEnabled(plan, before)[chosen].enabled)
    && (chosen in disk ==>
          if plan(PreferSet).Refused? then disk[chosen].priority == before[chosen].priority
          else StrictlyHighest(disk, chosen))
  }

  ghost predicate Persists(plan: Plan, before: Config, chosen: nat, ssid: string, psk: Option<string>) {
    ReachesSave(plan, Chosen(before, chosen, ssid, psk)) && !plan(SaveFile).Refused?
  }

  lemma SelectEnables(c: Config, chosen: nat)
    requires chosen in c
    ensures OnlyEnabled(c[chosen := c[chosen].(enabled := true)], chosen) == OnlyEnabled(c, chosen)
  {
  }

  lemma SetUpIsChosen(before: Config, chosen: nat, added: bool, ssid: string, psk: Option<string>)
    requires added <==> chosen !in before
    ensures var base := if added then before[chosen := EMPTY] else before;
            OnlyEnabled(Named(base, chosen, added, ssid, psk), chosen) == Chosen(before, chosen, ssid, psk)
  {
  }

  /** Enabling and ranking change neither ids nor modes, so the same commands follow. */
  lemma SameReads(plan: Plan, before: Config, enabled: Config, ranked: Config)
    requires enabled == AllEnabled(plan, before) && ranked.Keys == enabled.Keys
    requires forall id :: id in ranked ==> ranked[id] == enabled[id].(priority := ranked[id].priority)
    ensures Ranks(plan, enabled) <==> Ranks(plan, before)
    ensures Strips(plan, ranked) <==> Strips(plan, before)
  {
    forall id | id in before ensures Strippable(plan, ranked, id) <==> Strippable(plan, before, id) {
    }
  }

  lemma PromotedBy(plan: Plan, before: Config, enabled: Config, ranked: Config, chosen: nat)
    requires chosen in before && enabled == AllEnabled(plan, before)
    requires plan(PreferSet).Refused? ==> ranked == enabled
    requires !plan(PreferSet).Refused? ==> StrictlyHighest(ranked, chosen)
    requires !plan(PreferSet).Refused? ==>
      ranked == enabled[chosen := enabled[chosen].(priority := ranked[chosen].priority)]
    ensures Promoted(plan, before, Stripped(ranked), chosen)
  {
  }

  /** The saved file against the table the connect started from. */
  lemma SavedFrom(plan: Plan, before: Config, disk: Config, chosen: nat, ssid: string, psk: Option<string>)
    requires Promoted(plan, Chosen(before, chosen, ssid, psk), disk, chosen)
    ensures SavedAs(plan, before, disk, chosen, Written(before, chosen, ssid, psk))
  {
    var written := Written(before, chosen, ssid, psk);
    SavedOthers(plan, before, disk, chosen, ssid, psk);
    if chosen in disk && plan(PreferSet).Refused? {
      PriorityKept(before, disk, chosen, written.priority);
    }
  }

  lemma SavedOthers(plan: Plan, before: Config, disk: Config, chosen: nat, ssid: string, psk: Option<string>)
    requires Promoted(plan, Chosen(before, chosen, ssid, psk), disk, chosen)
    ensures NoAp(disk) && OthersKept(before, disk, chosen)
    ensures forall id :: id in disk && id != chosen ==> (disk[id].enabled <==> GetsEnabled(plan, disk, id))
    ensures chosen in disk <==> !Written(before, chosen, ssid, psk).ap
  {
    assert forall id :: id in before && id != chosen ==>
      Chosen(before, chosen, ssid, psk)[id] == before[id].(enabled := false);
  }

  lemma PriorityKept(before: Config, disk: Config, chosen: nat, p: int)
    requires OthersKept(before, disk, chosen) && chosen in disk && disk[chosen].priority == p
    ensures StrictlyHighest(disk, chosen) <==> Ahead(before, chosen, p)
  {
    assert forall id :: id != chosen ==> (id in disk <==> id in Stripped(before));
  }

  /** With no fault a connect is saved, strictly preferred and leaves every network enabled. */
  lemma FaultlessConnect(plan: Plan, before: Config, disk: Config, chosen: nat, ssid: string, psk: Option<string>)
    requires Faultless(plan)
    ensures SetsUp(plan, before, ssid, psk) && Persists(plan, before, chosen, ssid, psk)
    ensures SavedAs(plan, before, disk, chosen, Written(before, chosen, ssid, psk)) && !Written(before, chosen, ssid, psk).ap ==>
      StrictlyHighest(disk, chosen) && forall id :: id in disk ==> disk[id].enabled
  {
    if SavedAs(plan, before, disk, chosen, Written(before, chosen, ssid, psk)) {
      forall id | id in disk && id != chosen ensures disk[id].enabled {
        assert GetsEnabled(plan, disk, id);
      }
    }
  }

  /** Less the access points among the listed blocks. */
  function Without(c: Config, ids: seq<nat>): Config {
    map id | id in c && !(c[id].ap && id in ids) :: c[id]
  }

  lemma StripOne(before: Config, ids: seq<nat>, k: nat)
    requires k < |ids| && Distinct(ids) && ids[k] in before
    ensures var live := Without(before, ids[..k]);
            && ids[k] in live && live[ids[k]] == before[ids[k]]
            && Without(before, ids[..k + 1]) == (if before[ids[k]].ap then live - {ids[k]} else live)
  {
    assert ids[..k + 1] == ids[..k] + [ids[k]];
  }

  lemma StrippedWithout(c: Config, ids: seq<nat>)
    ensures Stripped(Without(c, ids)) == Stripped(c)
  {
  }

  lemma WithoutAll(c: Config, ids: seq<nat>)
    requires forall id :: id in c ==> id in ids
    ensures Without(c, ids) == Stripped(c)
    ensures Stripped(Stripped(c)) == Stripped(c)
  {
  }

  /** The daemon numbers a new block past the highest id. */
  method FreshId(c: Config) returns (id: nat)
    ensures id !in c
  {
    id := 0;
    var rest := c.Keys;
    while rest != {}
      invariant rest <= c.Keys && forall j :: j in c ==> j in rest || j < id
      decreases rest
    {
      var j :| j in rest;
      id := if j < id then id else j + 1;
      rest := rest - {j};
    }
  }
}
