/** The in-memory pack registry, with the goal-type index it rebuilds after every change. */
module PackStore {
  import opened Basics
  import opened Ordering
  import opened PackResolution

  datatype Failure = ContentConflict | NotFound

  datatype Fact = Fact(tenant: string, kind: string, pack: string, version: string, reason: string)

  /** The index with one manifest's goal types laid over it. */
  function Overlaid(index: Index, tenant: string, goalTypes: seq<GoalType>): Index {
    if goalTypes == [] then index
    else
      var n := |goalTypes| - 1;
      Overlaid(index, tenant, goalTypes[..n])[(tenant, goalTypes[n].name) := goalTypes[n]]
  }

  lemma {:induction false} OverlaidAt(index: Index, tenant: string, goalTypes: seq<GoalType>, key: (string, string))
    ensures var o, g := Overlaid(index, tenant, goalTypes), LastNamed(goalTypes, key.1);
            if key.0 == tenant && g.Some? then key in o && o[key] == g.value
            else (key in o <==> key in index) && (key in index ==> o[key] == index[key])
  {
    if goalTypes != [] { OverlaidAt(index, tenant, goalTypes[..|goalTypes| - 1], key); }
  }

  /** Other tenants' entries are untouched. */
  ghost predicate OthersKept(before: Index, after: Index, tenant: string) {
    forall key: (string, string) | key.0 != tenant :: (key in after <==> key in before)
                                                      && (key in before ==> after[key] == before[key])
  }

  function Entry(index: Index, tenant: string, name: string): Option<GoalType> {
    if (tenant, name) in index then Some(index[(tenant, name)]) else None
  }

  /** The offer of the last of the packs that makes one. */
  function LastOffer(parse: Parse, p: Packs, tenant: string, name: string, packs: seq<string>): Option<GoalType> {
    if packs == [] then None
    else
      var n := |packs| - 1;
      var offer := Offer(parse, p, tenant, packs[n], name);
      if offer.Some? then offer else LastOffer(parse, p, tenant, name, packs[..n])
  }

  /** Laying a pack's visible manifest over the index adds its offers. */
  lemma OverlayKeeps(parse: Parse, p: Packs, index: Index, tenant: string, packs: seq<string>, pack: string)
    requires forall name :: Entry(index, tenant, name) == LastOffer(parse, p, tenant, name, packs)
    requires Chosen(parse, p, tenant, pack).Some? && Chosen(parse, p, tenant, pack).value in p.manifests
    ensures var after := Overlaid(index, tenant, p.manifests[Chosen(parse, p, tenant, pack).value].goalTypes);
            && (forall name :: Entry(after, tenant, name) == LastOffer(parse, p, tenant, name, packs + [pack]))
            && OthersKept(index, after, tenant)
  {
    var goalTypes := p.manifests[Chosen(parse, p, tenant, pack).value].goalTypes;
    var after := Overlaid(index, tenant, goalTypes);
    assert (packs + [pack])[..|packs|] == packs;
    forall name ensures Entry(after, tenant, name) == LastOffer(parse, p, tenant, name, packs + [pack]) {
      OverlaidAt(index, tenant, goalTypes, (tenant, name));
      assert Entry(index, tenant, name) == LastOffer(parse, p, tenant, name, packs);
    }
    forall key: (string, string) | key.0 != tenant
      ensures (key in after <==> key in index) && (key in index ==> after[key] == index[key]) {
      OverlaidAt(index, tenant, goalTypes, key);
    }
  }

  lemma {:induction false} LastOfferAt(parse: Parse, p: Packs, tenant: string, name: string, packs: seq<string>)
    returns (j: nat)
    ensures LastOffer(parse, p, tenant, name, packs).None? ==>
              forall pack <- packs :: Offer(parse, p, tenant, pack, name).None?
    ensures LastOffer(parse, p, tenant, name, packs).Some? ==>
              && j < |packs| && Offer(parse, p, tenant, packs[j], name) == LastOffer(parse, p, tenant, name, packs)
              && forall l | j < l < |packs| :: Offer(parse, p, tenant, packs[l], name).None?
    decreases |packs|
  {
    if packs == [] { return 0; }
    var n := |packs| - 1;
    assert packs == packs[..n] + [packs[n]];
    if Offer(parse, p, tenant, packs[n], name).Some? { return n; }
    j := LastOfferAt(parse, p, tenant, name, packs[..n]);
  }

  /** Of packs in sorted order the last to offer is the last of all. */
  lemma SortedOffersDecide(parse: Parse, p: Packs, tenant: string, name: string, packs: seq<string>)
    requires StrictlySorted(packs) && LastOffer(parse, p, tenant, name, packs).Some?
    requires forall pack | Offer(parse, p, tenant, pack, name).Some? :: pack in packs
    ensures FromLastOffer(parse, p, tenant, name, LastOffer(parse, p, tenant, name, packs).value)
  {
    var j := LastOfferAt(parse, p, tenant, name, packs);
    forall later | Precedes(packs[j], later) ensures Offer(parse, p, tenant, later, name).None? {
      if Offer(parse, p, tenant, later, name).Some? {
        var l :| 0 <= l < |packs| && packs[l] == later;
        StringsMirror(packs[j], packs[l]);
      }
    }
  }

  lemma LastOffersMakeIndex(parse: Parse, p: Packs, index: Index, tenant: string, packs: seq<string>)
    requires StrictlySorted(packs)
    requires forall pack, name | Offer(parse, p, tenant, pack, name).Some? :: pack in packs
    requires forall name :: Entry(index, tenant, name) == LastOffer(parse, p, tenant, name, packs)
    ensures IndexOk(parse, p, index, tenant)
  {
    forall name
      ensures (tenant, name) in index ==> FromLastOffer(parse, p, tenant, name, index[(tenant, name)])
      ensures (tenant, name) !in index ==> forall pack :: Offer(parse, p, tenant, pack, name).None?
    {
      assert Entry(index, tenant, name) == LastOffer(parse, p, tenant, name, packs);
      if (tenant, name) in index {
        SortedOffersDecide(parse, p, tenant, name, packs);
      } else {
        var j := LastOfferAt(parse, p, tenant, name, packs);
      }
    }
  }

  lemma OnlyChosenOffer(parse: Parse, p: Packs, tenant: string, resolved: map<string, PackKey>)
    requires forall pack :: Chosen(parse, p, tenant, pack) == if pack in resolved then Some(resolved[pack]) else None
    ensures forall pack, name | Offer(parse, p, tenant, pack, name).Some? :: pack in resolved
  {
    forall pack, name | Offer(parse, p, tenant, pack, name).Some? ensures pack in resolved {
      assert Chosen(parse, p, tenant, pack).Some?;
    }
  }

  /** Setting one version's state concerns its tenant only. */
  lemma StateIsLocal(p: Packs, k: PackKey, state: PackState)
    requires WellFormed(p) && (k in p.states && p.states[k].revoked ==> state.revoked)
    ensures var q := p.(states := p.states[k := state]);
            && WellFormed(q) && Grows(p, q)
            && forall other | other != k.tenant :: SameFor(p, q, other)
  {
    var q := p.(states := p.states[k := state]);
    forall other | other != k.tenant ensures SameFor(p, q, other) {
      forall l: PackKey | l.tenant == other ensures Listable(p, l) == Listable(q, l) {}
      forall pack ensures Pin(p, other, pack) == Pin(q, other, pack) {}
    }
  }

  /** Pinning a pack concerns its tenant only. */
  lemma PinIsLocal(p: Packs, tenant: string, pack: string, version: string)
    requires WellFormed(p)
    ensures var q := p.(channels := p.channels[(tenant, pack) := version]);
            && WellFormed(q) && Grows(p, q)
            && forall other | other != tenant :: SameFor(p, q, other)
  {
    var q := p.(channels := p.channels[(tenant, pack) := version]);
    forall other | other != tenant ensures SameFor(p, q, other) {
      forall l: PackKey | l.tenant == other ensures Listable(p, l) == Listable(q, l) {}
      forall x ensures Pin(p, other, x) == Pin(q, other, x) {}
    }
  }

  /** A new version comes last, enabled unless it already has a state. */
  function Installed(p: Packs, k: PackKey, manifest: Manifest): Packs {
    p.(order := p.order + [k], manifests := p.manifests[k := manifest],
       states := if k in p.states then p.states else p.states[k := PackState(true, false)])
  }

  lemma InstallIsLocal(p: Packs, k: PackKey, manifest: Manifest)
    requires WellFormed(p) && k !in p.manifests && manifest.pack == k.pack && manifest.version == k.version
    ensures WellFormed(Installed(p, k, manifest)) && Grows(p, Installed(p, k, manifest))
    ensures forall other | other != k.tenant :: SameFor(p, Installed(p, k, manifest), other)
  {
    var q := Installed(p, k, manifest);
    assert k !in p.order;
    assert q.order[..|p.order|] == p.order;
    forall other | other != k.tenant ensures SameFor(p, q, other) {
      forall l: PackKey | l.tenant == other ensures Listable(p, l) == Listable(q, l) {}
      forall pack ensures Pin(p, other, pack) == Pin(q, other, pack) {}
    }
  }

  class PackRegistry {
    const parse: Parse
    var order: seq<PackKey>
    var manifests: map<PackKey, Manifest>
    var states: map<PackKey, PackState>
    var channels: map<(string, string), string>
    var index: Index
    var globals: map<string, GoalType>
    var facts: seq<Fact>

    function View(): Packs
      reads this
    {
      Packs(order, manifests, states, channels)
    }

    /** The index is right for every tenant. */
    ghost predicate Valid()
      reads this
    {
      WellFormed(View()) && forall tenant :: IndexOk(parse, View(), index, tenant)
    }

    constructor (parse: Parse)
      ensures Valid() && manifests == map[] && index == map[] && facts == []
    {
      this.parse := parse;
      order, manifests, states, channels, index, globals, facts := [], map[], map[], map[], map[], map[], [];
      new;
      forall tenant, pack, name ensures Offer(parse, View(), tenant, pack, name).None? {
      }
    }

    /** First loop of `_refresh_tenant_goal_types`: the visible version of each pack. */
    method ResolvePacks(tenant: string) returns (resolved: map<string, PackKey>)
      requires WellFormed(View())
      ensures forall pack :: Chosen(parse, View(), tenant, pack) == if pack in resolved then Some(resolved[pack]) else None
      ensures forall pack <- resolved :: resolved[pack] in manifests
    {
      resolved := map[];
      for i := 0 to |order|
        invariant forall pack ::
          ChosenUpTo(parse, View(), i, tenant, pack) == if pack in resolved then Some(resolved[pack]) else None
        invariant forall pack <- resolved :: resolved[pack] in manifests
      {
        var k := order[i];
        assert k in order;
        if k.tenant == tenant && Listable(View(), k) {
          var pinned := Pin(View(), tenant, k.pack);
          if pinned == None || pinned == Some(k.version) {
            if k.pack !in resolved || (pinned == None && Compare(parse, k, resolved[k.pack]) > 0) {
              resolved := resolved[k.pack := k];
            }
          }
        }
      }
    }

    /** Second loop: the tenant's entries are dropped, nobody else's. */
    method DropTenant(tenant: string)
      modifies this`index
      ensures index == map key | key in old(index) && key.0 != tenant :: old(index)[key]
    {
      var doomed := set key | key in index && key.0 == tenant;
      while doomed != {}
        invariant doomed <= index.Keys && forall key <- doomed :: key.0 == tenant
        invariant forall key <- index :: key in old(index) && index[key] == old(index)[key]
        invariant forall key <- old(index) :: key in index || key.0 == tenant
        invariant forall key <- index | key.0 == tenant :: key in doomed
        decreases |doomed|
      {
        var key :| key in doomed;
        index := index - {key};
        doomed := doomed - {key};
      }
    }

    method OverlayManifest(tenant: string, goalTypes: seq<GoalType>)
      modifies this`index
      ensures index == Overlaid(old(index), tenant, goalTypes)
    {
      for j := 0 to |goalTypes|
        invariant index == Overlaid(old(index), tenant, goalTypes[..j])
      {
        assert goalTypes[..j + 1][..j] == goalTypes[..j];
        index := index[(tenant, goalTypes[j].name) := goalTypes[j]];
      }
      assert goalTypes[..|goalTypes|] == goalTypes;
    }

    /** Third loop: the visible manifests in the order of pack ids. */
    method OverlayPacks(tenant: string, resolved: map<string, PackKey>, packs: seq<string>)
      requires forall pack <- packs :: pack in resolved && resolved[pack] in manifests
                                       && Chosen(parse, View(), tenant, pack) == Some(resolved[pack])
      requires forall name :: Entry(index, tenant, name) == None
      modifies this`index
      ensures forall name :: Entry(index, tenant, name) == LastOffer(parse, View(), tenant, name, packs)
      ensures OthersKept(old(index), index, tenant)
    {
      for i := 0 to |packs|
        invariant forall name :: Entry(index, tenant, name) == LastOffer(parse, View(), tenant, name, packs[..i])
        invariant OthersKept(old(index), index, tenant)
      {
        var pack := packs[i];
        assert pack in packs;
        OverlayKeeps(parse, View(), index, tenant, packs[..i], pack);
        assert packs[..i + 1] == packs[..i] + [pack];
        OverlayManifest(tenant, manifests[resolved[pack]].goalTypes);
      }
      assert packs[..|packs|] == packs;
    }

    /** `_refresh_tenant_goal_types`. */
    method RefreshTenant(tenant: string)
      requires WellFormed(View())
      modifies this`index
      ensures IndexOk(parse, View(), index, tenant)
      ensures OthersKept(old(index), index, tenant)
    {
      var resolved := ResolvePacks(tenant);
      DropTenant(tenant);
      var packs := SortStrings(resolved.Keys);
      OverlayPacks(tenant, resolved, packs);
      OnlyChosenOffer(parse, View(), tenant, resolved);
      LastOffersMakeIndex(parse, View(), index, tenant, packs);
    }

    /** The index is refreshed for the tenant whose packs changed; everyone else's was right. */
    method Settle(tenant: string, ghost before: Packs)
      requires WellFormed(before) && WellFormed(View())
      requires forall other :: IndexOk(parse, before, index, other)
      requires forall other | other != tenant :: SameFor(before, View(), other)
      modifies this`index
      ensures Valid() && OthersKept(old(index), index, tenant)
    {
      ghost var was := index;
      RefreshTenant(tenant);
      forall other ensures IndexOk(parse, View(), index, other) {
        if other != tenant { OthersKeepIndex(parse, before, View(), was, index, other); }
      }
    }

    /** `install_pack`: the same content again changes nothing; other content is a conflict. */
    method InstallPack(tenant: string, manifest: Manifest) returns (r: Result<(), Failure>)
      requires Valid()
      modifies this`order, this`manifests, this`states, this`index
      ensures Valid() && Grows(old(View()), View()) && OthersKept(old(index), index, tenant)
      ensures var k := PackKey(tenant, manifest.pack, manifest.version);
              && (r.Err? <==> k in old(manifests) && old(manifests)[k] != manifest)
              && (r.Err? ==> r.error == ContentConflict)
              && (k in old(manifests) ==> View() == old(View()) && index == old(index))
              && (k !in old(manifests) ==> View() == Installed(old(View()), k, manifest))
              && (k !in old(manifests) && k !in old(states) ==> Usable(View(), k))
              && (k in old(states) ==> states == old(states))
    {
      var k := PackKey(tenant, manifest.pack, manifest.version);
      if k in manifests {
        return if manifests[k] != manifest then Err(ContentConflict) else Ok(());
      }
      ghost var before := View();
      InstallIsLocal(before, k, manifest);
      order, manifests := order + [k], manifests[k := manifest];
      if k !in states {
        states := states[k := PackState(true, false)];
      }
      assert View() == Installed(before, k, manifest);
      Settle(tenant, before);
      r := Ok(());
    }

    method RecordFact(tenant: string, kind: string, k: PackKey, reason: string)
      modifies this`facts
      ensures facts == old(facts) + [Fact(tenant, kind, k.pack, k.version, reason)]
    {
      facts := facts + [Fact(tenant, kind, k.pack, k.version, reason)];
    }

    /** `set_pack_enabled`: a revoked version may be marked enabled, but stays revoked. */
    method SetPackEnabled(tenant: string, pack: string, version: string, enabled: bool, reason: string)
      returns (r: Result<(), Failure>)
      requires Valid()
      modifies this`states, this`facts, this`index
      ensures Valid() && Grows(old(View()), View()) && OthersKept(old(index), index, tenant)
      ensures var k := PackKey(tenant, pack, version);
              && (r.Err? <==> k !in manifests)
              && (r.Err? ==> r.error == NotFound && View() == old(View()) && index == old(index) && facts == old(facts))
              && (r.Ok? ==>
                    && states == old(states)[k := PackState(enabled, k in old(states) && old(states)[k].revoked)]
                    && facts == old(facts) + [Fact(tenant, if enabled then "capability_pack.enabled"
                                                           else "capability_pack.disabled", pack, version, reason)])
    {
      var k := PackKey(tenant, pack, version);
      if k !in manifests { return Err(NotFound); }
      ghost var before := View();
      StateIsLocal(before, k, PackState(enabled, k in states && states[k].revoked));
      states := states[k := PackState(enabled, k in states && states[k].revoked)];
      RecordFact(tenant, if enabled then "capability_pack.enabled" else "capability_pack.disabled", k, reason);
      Settle(tenant, before);
      r := Ok(());
    }

    /** `revoke_pack`. */
    method RevokePack(tenant: string, pack: string, version: string, reason: string) returns (r: Result<(), Failure>)
      requires Valid()
      modifies this`states, this`facts, this`index
      ensures Valid() && Grows(old(View()), View()) && OthersKept(old(index), index, tenant)
      ensures var k := PackKey(tenant, pack, version);
              && (r.Err? <==> k !in manifests)
              && (r.Err? ==> r.error == NotFound && View() == old(View()) && index == old(index) && facts == old(facts))
              && (r.Ok? ==>
                    && states == old(states)[k := PackState(false, true)]
                    && facts == old(facts) + [Fact(tenant, "capability_pack.revoked", pack, version, reason)]
                    && Chosen(parse, View(), tenant, pack) != Some(k))
    {
      var k := PackKey(tenant, pack, version);
      if k !in manifests { return Err(NotFound); }
      ghost var before := View();
      StateIsLocal(before, k, PackState(false, true));
      states := states[k := PackState(false, true)];
      RecordFact(tenant, "capability_pack.revoked", k, reason);
      Settle(tenant, before);
      RevokedNotChosen(parse, View(), k);
      r := Ok(());
    }

    /** `set_stable_channel`: from now on the pack shows this version or none. */
    method SetStableChannel(tenant: string, pack: string, version: string) returns (r: Result<(), Failure>)
      requires Valid()
      modifies this`channels, this`facts, this`index
      ensures Valid() && Grows(old(View()), View()) && OthersKept(old(index), index, tenant)
      ensures var k := PackKey(tenant, pack, version);
              && (r.Err? <==> k !in manifests)
              && (r.Err? ==> r.error == NotFound && View() == old(View()) && index == old(index) && facts == old(facts))
              && (r.Ok? ==>
                    && channels == old(channels)[(tenant, pack) := version]
                    && facts == old(facts) + [Fact(tenant, "capability_pack.channel_updated", pack, version, "")]
                    && Chosen(parse, View(), tenant, pack) == if Listable(View(), k) then Some(k) else None)
    {
      var k := PackKey(tenant, pack, version);
      if k !in manifests { return Err(NotFound); }
      ghost var before := View();
      PinIsLocal(before, tenant, pack, version);
      channels := channels[(tenant, pack) := version];
      RecordFact(tenant, "capability_pack.channel_updated", k, "");
      Settle(tenant, before);
      ChosenVersion(parse, View(), tenant, pack);
      r := Ok(());
    }

    /** `get_goal_type`: the tenant's own entry, else the built-in one. */
    method GetGoalType(tenant: string, name: string) returns (r: Result<GoalType, Failure>)
      requires Valid()
      ensures r.Ok? && (tenant, name) in index ==> FromLastOffer(parse, View(), tenant, name, r.value)
      ensures (forall pack :: Offer(parse, View(), tenant, pack, name).None?) ==>
                r == if name in globals then Ok(globals[name]) else Err(NotFound)
      ensures (tenant, name) in index ==> r.Ok?
    {
      if (tenant, name) in index {
        assert IndexOk(parse, View(), index, tenant);
        return Ok(index[(tenant, name)]);
      }
      r := if name in globals then Ok(globals[name]) else Err(NotFound);
    }
  }
}
