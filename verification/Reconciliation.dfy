/** Keeping every connector usable: the hourly reconciliation and the other places that publish a
    connector. Bitrix is a remote object any of whose calls may fail, before or after taking effect. */
module Reconciliation {
  import opened Text

  /** A connector on a line of a portal. */
  datatype Place = Place(portal: string, connector: string, line: int)

  datatype Link = Link(active: bool, data: bool)

  /** imconnector.activate deletes the connector's data along with its status record. */
  function Activated(l: Link): Link {
    l.(active := true, data := false)
  }

  /** imconnector.connector.data.set has nowhere to land on an inactive connector. */
  function WithData(l: Link): Link {
    if l.active then l.(data := true) else l
  }

  /** imconnector.status says so: registered, active and configured at the same time. */
  predicate Usable(registered: bool, l: Link) {
    registered && l.active && l.data
  }

  class Bitrix {
    var registered: set<(string, string)>
    var links: map<Place, Link>
    /** The calls made that write, and the calls of any kind that the world failed: lost or unanswered, or
        a registration that left nothing registered. A call that Bitrix refuses is none. */
    ghost var writes: nat
    ghost var failures: nat

    predicate Healthy(p: Place)
      reads this
    {
      Usable((p.portal, p.connector) in registered, LinkAt(p))
    }

    function LinkAt(p: Place): Link
      reads this
    {
      if p in links then links[p] else Link(false, false)
    }

    /** An error that says the connector already exists is no failure. */
    method Register(p: Place) returns (ok: bool)
      modifies this
      ensures links == old(links) && writes == old(writes) + 1
      ensures registered == old(registered) || registered == old(registered) + {(p.portal, p.connector)}
      ensures ok ==> (p.portal, p.connector) in registered
      ensures failures == old(failures) + if (p.portal, p.connector) in registered then 0 else 1
    {
      writes := writes + 1;
      var reached: bool := *;
      var answered: bool := *;
      if reached {
        registered := registered + {(p.portal, p.connector)};
      }
      failures := failures + if (p.portal, p.connector) in registered then 0 else 1;
      ok := reached && answered;
    }

    method Activate(p: Place) returns (ok: bool, ghost landed: bool)
      modifies this
      ensures registered == old(registered) && writes == old(writes) + 1
      ensures links == if landed then old(links)[p := Activated(old(LinkAt(p)))] else old(links)
      ensures landed ==> (p.portal, p.connector) in registered
      ensures ok ==> landed
      ensures old(failures) <= failures <= old(failures) + 1
      ensures failures == old(failures) ==> ok == landed == ((p.portal, p.connector) in registered)
    {
      writes := writes + 1;
      var reached: bool := *;
      var answered: bool := *;
      var effective := reached && (p.portal, p.connector) in registered;
      if effective {
        links := links[p := Activated(LinkAt(p))];
      }
      ok, landed := effective && answered, effective;
      failures := failures + if reached && answered then 0 else 1;
    }

    method SetData(p: Place) returns (ok: bool, ghost landed: bool)
      modifies this
      ensures registered == old(registered) && writes == old(writes) + 1
      ensures links == if landed then old(links)[p := WithData(old(LinkAt(p)))] else old(links)
      ensures landed ==> old(LinkAt(p)).active
      ensures ok ==> landed
      ensures old(failures) <= failures <= old(failures) + 1
      ensures failures == old(failures) ==> ok == landed == old(LinkAt(p)).active
    {
      writes := writes + 1;
      var reached: bool := *;
      var answered: bool := *;
      var effective := reached && p in links && links[p].active;
      if effective {
        links := links[p := WithData(links[p])];
      }
      ok, landed := effective && answered, effective;
      failures := failures + if reached && answered then 0 else 1;
    }

    /** imconnector.status: either nothing usable comes back, or the truth. */
    method Status(p: Place) returns (active: bool, understood: bool)
      modifies this`failures
      ensures understood ==> active == Healthy(p)
      ensures !understood ==> !active
      ensures failures == old(failures) + if understood then 0 else 1
    {
      understood := *;
      active := understood && p in links && Usable((p.portal, p.connector) in registered, links[p]);
      failures := failures + if understood then 0 else 1;
    }

    /** What publishing at `p` leaves alone: every other place, and every registration. */
    twostate predicate OnlyAt(p: Place)
      reads this
    {
      && old(registered) <= registered <= old(registered) + {(p.portal, p.connector)}
      && links - {p} == old(links) - {p}
    }

    /** Publishing in the documented order. Afterwards the connector is usable exactly when the
        activation and then the data landed, or, if the activation did not, when nothing was missing
        but the registration. */
    method PublicarConector(p: Place) returns (ghost activated: bool, ghost configured: bool)
      modifies this
      ensures OnlyAt(p) && failures >= old(failures)
      ensures Healthy(p) <==> if activated then configured
                           else Usable((p.portal, p.connector) in registered, old(LinkAt(p)))
      ensures p.connector != "" && p.line > 0 ==>
                writes > old(writes) && (failures == old(failures) ==>
                  activated && configured && (p.portal, p.connector) in registered && LinkAt(p) == Link(true, true))
      ensures p.connector == "" || p.line <= 0 ==> unchanged(this)
    {
      if p.connector == "" || p.line <= 0 {
        return false, false;
      }
      var known := Register(p);
      var answered, landed := Activate(p);
      if !answered {
        return landed, false;
      }
      var answeredData: bool;
      answeredData, configured := SetData(p);
      activated := landed;
    }

    /** One account: look, republish only what is known to be out, look again. */
    method ReconciliarUm(p: Place) returns (ghost understood: bool)
      requires p.connector != "" && p.line > 0
      modifies this
      ensures OnlyAt(p) && failures >= old(failures)
      ensures old(Healthy(p)) ==> Healthy(p)
      ensures writes >= old(writes) && (writes > old(writes) <==> understood && !old(Healthy(p)))
      ensures writes == old(writes) ==> links == old(links) && registered == old(registered)
      ensures failures == old(failures) ==> Healthy(p)
    {
      var active, clear := Status(p);
      understood := clear;
      if !clear {
        return;
      }
      if active {
        return;
      }
      ghost var activated, configured := PublicarConector(p);
      var activeNow, clearNow := Status(p);
    }
  }

  datatype Account = Account(connector: string, line: int)

  /** What app.info answers. */
  datatype Installation = Removed | Present | Unclear

  /** A portal as listed: its accounts when they can be read, and the mark it carries. */
  datatype Portal = Portal(domain: string, accounts: seq<Account>, readable: bool, uninstalled: bool)

  class Job {
    const bitrix: Bitrix
    /** The portals marked as having removed the app. */
    var uninstalled: set<string>

    constructor (bitrix: Bitrix, uninstalled: set<string>)
      ensures this.bitrix == bitrix && this.uninstalled == uninstalled
    {
      this.bitrix := bitrix;
      this.uninstalled := uninstalled;
    }

    /** Only a definite answer moves the mark, and only a mark that says otherwise. */
    method ConferirInstalacao(p: Portal, answer: Installation, stored: bool)
      requires p.uninstalled == (p.domain in uninstalled)
      modifies this`uninstalled
      ensures uninstalled == if !stored || answer.Unclear? then old(uninstalled)
                             else if answer.Removed? then old(uninstalled) + {p.domain}
                             else old(uninstalled) - {p.domain}
    {
      match answer {
        case Removed =>
          if !p.uninstalled && stored {
            uninstalled := uninstalled + {p.domain};
          }
        case Unclear =>
        case Present =>
          if p.uninstalled && stored {
            uninstalled := uninstalled - {p.domain};
          }
      }
    }

    /** The accounts of one portal. */
    method ReconciliarContas(p: Portal)
      modifies bitrix
      ensures bitrix.failures >= old(bitrix.failures)
      ensures forall place: Place :: old(bitrix.Healthy(place)) ==> bitrix.Healthy(place)
      ensures bitrix.failures == old(bitrix.failures) ==> AllUsable(p)
    {
      for k := 0 to |p.accounts|
        invariant bitrix.failures >= old(bitrix.failures)
        invariant forall place: Place :: old(bitrix.Healthy(place)) ==> bitrix.Healthy(place)
        invariant bitrix.failures == old(bitrix.failures) ==>
                    forall j :: 0 <= j < k && p.accounts[j].connector != "" && p.accounts[j].line > 0 ==>
                      bitrix.Healthy(Place(p.domain, p.accounts[j].connector, p.accounts[j].line))
      {
        var a := p.accounts[k];
        if a.connector == "" || a.line <= 0 {
          continue;
        }
        Step(Place(p.domain, a.connector, a.line));
      }
    }

    /** Every account of the portal that names a connector and a line is usable. */
    ghost predicate AllUsable(p: Portal)
      reads bitrix
    {
      forall k :: 0 <= k < |p.accounts| && p.accounts[k].connector != "" && p.accounts[k].line > 0 ==>
        bitrix.Healthy(Place(p.domain, p.accounts[k].connector, p.accounts[k].line))
    }

    /** One account seen from every other place. */
    method Step(place: Place)
      requires place.connector != "" && place.line > 0
      modifies bitrix
      ensures bitrix.failures >= old(bitrix.failures)
      ensures forall other: Place :: old(bitrix.Healthy(other)) ==> bitrix.Healthy(other)
      ensures bitrix.failures == old(bitrix.failures) ==> bitrix.Healthy(place)
    {
      ghost var understood := bitrix.ReconciliarUm(place);
      forall other: Place | old(bitrix.Healthy(other)) ensures bitrix.Healthy(other) {
        if other != place {
          assert other in old(bitrix.links) - {place} <==> other in bitrix.links - {place};
        }
      }
    }

    /** One round over all portals; None is a list that could not be read. Whatever fails, no usable
        connector is made unusable; and when every account list was read and no call failed, every
        account that names a connector and a line is usable. A portal's mark is what it answered,
        where the answer was definite and could be stored, and otherwise what it was. */
    method Reconciliar(listed: Option<seq<Portal>>, answers: seq<(Installation, bool)>)
      requires listed.Some? ==> Listed(listed.value) && |answers| == |listed.value|
      modifies bitrix, this`uninstalled
      ensures forall place: Place :: old(bitrix.Healthy(place)) ==> bitrix.Healthy(place)
      ensures listed.None? ==> unchanged(bitrix) && uninstalled == old(uninstalled)
      ensures listed.Some? && bitrix.failures == old(bitrix.failures) ==>
                forall k :: 0 <= k < |listed.value| && listed.value[k].readable ==> AllUsable(listed.value[k])
      ensures listed.Some? ==> forall k :: 0 <= k < |answers| ==>
                (listed.value[k].domain in uninstalled <==>
                   if listed.value[k].readable && answers[k].1 && !answers[k].0.Unclear? then answers[k].0.Removed?
                   else listed.value[k].domain in old(uninstalled))
      ensures listed.Some? ==> forall d :: (forall k :: 0 <= k < |answers| ==> listed.value[k].domain != d) ==>
                (d in uninstalled <==> d in old(uninstalled))
    {
      if listed.None? {
        return;
      }
      var portals := listed.value;
      for n := 0 to |portals|
        invariant bitrix.failures >= old(bitrix.failures)
        invariant forall place: Place :: old(bitrix.Healthy(place)) ==> bitrix.Healthy(place)
        invariant bitrix.failures == old(bitrix.failures) ==>
                    forall k :: 0 <= k < n && portals[k].readable ==> AllUsable(portals[k])
        invariant forall k :: n <= k < |portals| ==> portals[k].uninstalled == (portals[k].domain in uninstalled)
        invariant forall k :: n <= k < |portals| ==>
                    (portals[k].domain in uninstalled <==> portals[k].domain in old(uninstalled))
        invariant forall k :: 0 <= k < n ==>
                    (portals[k].domain in uninstalled <==>
                       if portals[k].readable && answers[k].1 && !answers[k].0.Unclear? then answers[k].0.Removed?
                       else portals[k].domain in old(uninstalled))
        invariant forall d :: (forall k :: 0 <= k < |portals| ==> portals[k].domain != d) ==>
                    (d in uninstalled <==> d in old(uninstalled))
      {
        if !portals[n].readable {
          continue;
        }
        label before:
        ConferirInstalacao(portals[n], answers[n].0, answers[n].1);
        assert forall d :: d != portals[n].domain ==> (d in uninstalled <==> d in old@before(uninstalled));
        ReconciliarContas(portals[n]);
      }
    }

    /** What the portal table gives: each portal once, with the mark it carries. */
    ghost predicate Listed(portals: seq<Portal>)
      reads this
    {
      && (forall k :: 0 <= k < |portals| ==> portals[k].uninstalled == (portals[k].domain in uninstalled))
      && (forall j, k :: 0 <= j < k < |portals| ==> portals[j].domain != portals[k].domain)
    }

    /** A usable connector stays usable through any number of further rounds, failing as they may. */
    method StaysUsable(rounds: seq<seq<Portal>>, place: Place)
      requires bitrix.Healthy(place)
      modifies bitrix
      ensures bitrix.Healthy(place)
    {
      for n := 0 to |rounds|
        invariant bitrix.Healthy(place)
      {
        for k := 0 to |rounds[n]|
          invariant bitrix.Healthy(place)
        {
          ReconciliarContas(rounds[n][k]);
        }
      }
    }
  }

  // ----- the other publishers -------------------------------------------------------------------

  /** The install callback: every target in turn, no answer looked at. Unlike the reconciliation it
      does not look first, so it promises usability only where no call failed. */
  method InstallCallback(bitrix: Bitrix, targets: seq<Place>)
    modifies bitrix
    ensures bitrix.failures == old(bitrix.failures) ==> forall k :: 0 <= k < |targets| ==> bitrix.Healthy(targets[k])
    ensures forall other: Place :: other !in targets ==> bitrix.LinkAt(other) == old(bitrix.LinkAt(other))
    ensures old(bitrix.registered) <= bitrix.registered
    ensures forall pair :: pair in bitrix.registered && pair !in old(bitrix.registered) ==>
              exists k :: 0 <= k < |targets| && pair == (targets[k].portal, targets[k].connector)
    ensures forall other: Place :: other !in targets && old(bitrix.Healthy(other)) ==> bitrix.Healthy(other)
  {
    for n := 0 to |targets|
      invariant bitrix.failures >= old(bitrix.failures)
      invariant bitrix.failures == old(bitrix.failures) ==> forall k :: 0 <= k < n ==> bitrix.Healthy(targets[k])
      invariant forall other: Place :: other !in targets ==> bitrix.LinkAt(other) == old(bitrix.LinkAt(other))
      invariant old(bitrix.registered) <= bitrix.registered
      invariant forall pair :: pair in bitrix.registered && pair !in old(bitrix.registered) ==>
                  exists k :: 0 <= k < n && pair == (targets[k].portal, targets[k].connector)
    {
      var r := bitrix.Register(targets[n]);
      var a, landed := bitrix.Activate(targets[n]);
      var d, configured := bitrix.SetData(targets[n]);
    }
  }

  /** The order the program used before: data first, then the activation that deletes it. Whenever the
      activation takes effect the connector is left unusable, however it stood and whatever else
      fails. */
  method DataBeforeActivation(bitrix: Bitrix, p: Place) returns (ghost landed: bool)
    modifies bitrix
    ensures landed ==> !bitrix.Healthy(p)
  {
    var r := bitrix.Register(p);
    var d, configured := bitrix.SetData(p);
    var a: bool;
    a, landed := bitrix.Activate(p);
  }

  /** "Force register and activate": each connector on each of its lines; a line that does not
      activate is skipped. */
  method ActivateConnectors(bitrix: Bitrix, portal: string, connectors: seq<(string, seq<int>)>)
    returns (anyActive: bool)
    modifies bitrix
    ensures bitrix.failures == old(bitrix.failures) ==>
              forall j, k :: 0 <= j < |connectors| && 0 <= k < |connectors[j].1| ==>
                bitrix.Healthy(Place(portal, connectors[j].0, connectors[j].1[k]))
    ensures bitrix.failures == old(bitrix.failures) ==>
              (anyActive <==> exists j :: 0 <= j < |connectors| && connectors[j].1 != [])
    ensures anyActive ==> exists p: Place :: bitrix.LinkAt(p).active
  {
    ghost var up := Place(portal, "", 0);
    anyActive := false;
    for n := 0 to |connectors|
      invariant bitrix.failures >= old(bitrix.failures)
      invariant bitrix.failures == old(bitrix.failures) ==>
                  forall j, k :: 0 <= j < n && 0 <= k < |connectors[j].1| ==>
                    bitrix.Healthy(Place(portal, connectors[j].0, connectors[j].1[k]))
      invariant bitrix.failures == old(bitrix.failures) ==>
                  (anyActive <==> exists j :: 0 <= j < n && connectors[j].1 != [])
      invariant anyActive ==> bitrix.LinkAt(up).active
    {
      var (connector, lines) := connectors[n];
      ghost var earlier, before := anyActive, bitrix.failures;
      var r := bitrix.Register(Place(portal, connector, 0));
      for m := 0 to |lines|
        invariant bitrix.failures >= before
        invariant bitrix.failures == old(bitrix.failures) ==> (portal, connector) in bitrix.registered
        invariant bitrix.failures == old(bitrix.failures) ==>
                    forall j, k :: 0 <= j < n && 0 <= k < |connectors[j].1| ==>
                      bitrix.Healthy(Place(portal, connectors[j].0, connectors[j].1[k]))
        invariant bitrix.failures == old(bitrix.failures) ==>
                    (forall k :: 0 <= k < m ==> bitrix.Healthy(Place(portal, connector, lines[k])))
                    && (anyActive <==> earlier || m > 0)
        invariant anyActive ==> bitrix.LinkAt(up).active
      {
        var place := Place(portal, connector, lines[m]);
        var a, landed := bitrix.Activate(place);
        if !a {
          continue;
        }
        anyActive, up := true, place;
        var d, configured := bitrix.SetData(place);
      }
      assert connectors[n].1 == lines;
      assert (exists j :: 0 <= j < n + 1 && connectors[j].1 != []) <==>
             (exists j :: 0 <= j < n && connectors[j].1 != []) || lines != [];
    }
  }
}
