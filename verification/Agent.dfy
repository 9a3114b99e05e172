/**
 The agent's apply path as the object the source updates in place: the delta
 loops of the live edit and the sequence of effects of one apply. gRPC calls and
 `docker restart` may fail at any time.
 */
module Agent {
  import opened Wrappers
  import opened Json
  import opened NodeConf
  import opened ClientSplit
  import opened ApplyProtocol
  import Skeleton

  /** An email's uuid on one tag while `adds` is still to be added or changed and `removes` still to be removed. */
  function Expected(oldSet: map<string, string>, newSet: map<string, string>, adds: set<string>, removes: set<string>,
                    e: string): Option<string> {
    if e in newSet && e !in adds then Some(newSet[e])
    else if e in oldSet && (e in newSet || e in removes) then Some(oldSet[e])
    else None
  }

  class NodeAgent {
    var file: File
    var xray: Xray
    var last: Option<Json>          // most recent full config, if it was readable
    var skeleton: Option<Json>      // the in-memory baseline
    var clients: Clients
    var sha: Option<Json>
    var disk: Baseline              // its durable copy
    ghost var lost: nat             // gRPC calls that have failed in transport
    ghost var touched: set<(string, string)>   // the users that calls were made for, by tag
    ghost var restarts: nat         // times `docker restart` was asked for

    ghost function Live(): Baseline
      reads this
    {
      if skeleton.Some? && sha.Some? then Known(sha.value, Parsed(skeleton.value, clients)) else Unknown
    }

    /** What every operation keeps, a failed restart included: the baseline is the split of the document it names. */
    ghost predicate Valid()
      reads this
    {
      (skeleton.Some? <==> sha.Some?) && Faithful(Live())
    }

    /** A known baseline describes the running Xray. */
    ghost predicate Describes()
      reads this
    {
      Live().Known? ==> xray == Load(Doc(Live().doc))
    }

    /** Restores a recorded baseline whose hash still matches the file. */
    method Seed()
      modifies this
      ensures file == old(file) && xray == old(xray) && disk == old(disk)
      ensures Live() == DoBoot(State(file, xray, Unknown, disk, Down)).mem
      ensures Faithful(disk) ==> Valid()
    {
      skeleton, clients, sha := None, map[], None;
      if disk.Known? && file == Doc(disk.doc) {
        skeleton, clients, sha := Some(disk.parsed.skeleton), disk.parsed.clients, Some(disk.doc);
      }
    }

    method CallAdd(tag: string, email: string, id: string) returns (ok: bool)
      modifies this`xray, this`lost, this`touched
      ensures lost >= old(lost) && (ok ==> AddUser(old(xray), tag, email, id) == Some(xray) && lost == old(lost))
      ensures touched == old(touched) + {(tag, email)}
      ensures !ok ==> lost > old(lost) || (AddUser(old(xray), tag, email, id).None? && xray == old(xray))
    {
      touched := touched + {(tag, email)};
      var fails: bool := *;
      if fails {
        lost := lost + 1;
        return false;
      }
      var r := AddUser(xray, tag, email, id);
      if r.None? {
        return false;
      }
      xray, ok := r.value, true;
    }

    method CallRemove(tag: string, email: string) returns (ok: bool)
      modifies this`xray, this`lost, this`touched
      ensures lost >= old(lost) && (ok ==> RemoveUser(old(xray), tag, email) == Some(xray) && lost == old(lost))
      ensures touched == old(touched) + {(tag, email)}
      ensures !ok ==> lost > old(lost) || (RemoveUser(old(xray), tag, email).None? && xray == old(xray))
    {
      touched := touched + {(tag, email)};
      var fails: bool := *;
      if fails {
        lost := lost + 1;
        return false;
      }
      var r := RemoveUser(xray, tag, email);
      if r.None? {
        return false;
      }
      xray, ok := r.value, true;
    }

    /** What the two delta loops have done to one tag so far. */
    ghost predicate Progress(tag: string, before: Xray, oldSet: map<string, string>, newSet: map<string, string>,
                             adds: set<string>, removes: set<string>)
      reads this
    {
      && xray.Running? && before.Running? && xray.skeleton == before.skeleton
      && xray.clients.Keys == before.clients.Keys
      && (forall t :: t in before.clients && t != tag ==> xray.clients[t] == before.clients[t])
      && (tag in xray.clients ==> forall e :: Cell(xray.clients, tag, e) == Expected(oldSet, newSet, adds, removes, e))
    }

    /** Xray serves exactly the old set on one tag, which it has unless there is nothing to serve. */
    ghost predicate Serves(tag: string, oldSet: map<string, string>, newSet: map<string, string>)
      reads this
    {
      xray.Running? && if tag in xray.clients then xray.clients[tag] == oldSet else oldSet == map[] && newSet == map[]
    }

    /** Xray holds, for one email, what the old set says. */
    ghost predicate Holds(tag: string, oldSet: map<string, string>, email: string)
      reads this
    {
      && xray.Running? && tag in xray.clients
      && Cell(xray.clients, tag, email) == if email in oldSet then Some(oldSet[email]) else None
    }

    /** One email of the new set: left alone if its uuid stays, otherwise removed if it was there, and added. */
    method AddOrChange(tag: string, email: string, oldSet: map<string, string>, newSet: map<string, string>)
      returns (ok: bool)
      requires email in newSet
      modifies this`xray, this`lost, this`touched
      ensures lost >= old(lost) && (ok ==> lost == old(lost))
      ensures old(Holds(tag, oldSet, email)) ==>
                if ok then xray == Put(old(xray), tag, email, newSet[email]) else lost > old(lost)
      ensures touched == old(touched) || touched == old(touched) + {(tag, email)}
      ensures email in oldSet && oldSet[email] == newSet[email] ==> touched == old(touched)
    {
      if email in oldSet && oldSet[email] == newSet[email] {
        assert old(Holds(tag, oldSet, email)) ==> xray.clients[tag] == xray.clients[tag][email := newSet[email]];
        return true;
      }
      if email in oldSet {
        ok := CallRemove(tag, email);
        if !ok {
          return false;
        }
        assert old(Holds(tag, oldSet, email)) ==> xray.clients[tag] == old(xray).clients[tag] - {email};
      }
      ghost var mid := xray;
      ok := CallAdd(tag, email, newSet[email]);
      if ok && old(Holds(tag, oldSet, email)) {
        assert xray.clients[tag] == mid.clients[tag][email := newSet[email]];
        assert xray.clients[tag] == old(xray).clients[tag][email := newSet[email]];
        assert xray.clients == old(xray).clients[tag := xray.clients[tag]];
      }
    }

    /** Additions and changes of one tag, in any order. From the old set they only fail when a call is lost. */
    method AddAndChange(tag: string, oldSet: map<string, string>, newSet: map<string, string>) returns (ok: bool)
      modifies this`xray, this`lost, this`touched
      ensures lost >= old(lost) && (ok ==> lost == old(lost))
      ensures old(Serves(tag, oldSet, newSet)) ==>
                if ok then Progress(tag, old(xray), oldSet, newSet, {}, oldSet.Keys) else lost > old(lost)
      ensures TouchesOnly(old(touched), touched, tag, oldSet, newSet)
    {
      var todo := newSet.Keys;
      ghost var sane := Serves(tag, oldSet, newSet);
      while todo != {}
        invariant todo <= newSet.Keys && lost == old(lost)
        invariant sane ==> Progress(tag, old(xray), oldSet, newSet, todo, oldSet.Keys)
        invariant TouchesOnly(old(touched), touched, tag, oldSet, newSet)
      {
        var email :| email in todo;
        assert sane ==> Holds(tag, oldSet, email);
        ghost var x, t := xray, touched;
        ok := AddOrChange(tag, email, oldSet, newSet);
        OneTouched(old(touched), t, touched, tag, oldSet, newSet, email);
        hide TouchesOnly, Holds, Put;
        if !ok {
          return false;
        }
        if sane {
          PutCells(x, tag, email, newSet[email]);
        }
        todo := todo - {email};
      }
      ok := true;
    }

    /** One email of the old set: removed unless the new set has it. */
    method RemoveIfGone(tag: string, email: string, oldSet: map<string, string>, newSet: map<string, string>)
      returns (ok: bool)
      requires email in oldSet
      modifies this`xray, this`lost, this`touched
      ensures lost >= old(lost) && (ok ==> lost == old(lost))
      ensures email in newSet ==> ok && xray == old(xray) && touched == old(touched)
      ensures email !in newSet ==> touched == old(touched) + {(tag, email)}
      ensures email !in newSet && old(Holds(tag, oldSet, email)) ==>
                if ok then xray == Drop(old(xray), tag, email) else lost > old(lost)
    {
      if email in newSet {
        return true;
      }
      ok := CallRemove(tag, email);
    }

    /** Removals of one tag, in any order. After the additions they only fail when a call is lost. */
    method RemoveGone(tag: string, oldSet: map<string, string>, newSet: map<string, string>, ghost before: Xray)
      returns (ok: bool)
      modifies this`xray, this`lost, this`touched
      ensures lost >= old(lost) && (ok ==> lost == old(lost))
      ensures old(Added(tag, before, oldSet, newSet)) ==>
                if ok then Progress(tag, before, oldSet, newSet, {}, {}) else lost > old(lost)
      ensures TouchesOnly(old(touched), touched, tag, oldSet, newSet)
    {
      var todo := oldSet.Keys;
      ghost var sane := Added(tag, before, oldSet, newSet);
      while todo != {}
        invariant todo <= oldSet.Keys && lost == old(lost)
        invariant sane ==> Progress(tag, before, oldSet, newSet, {}, todo)
        invariant TouchesOnly(old(touched), touched, tag, oldSet, newSet)
      {
        var email :| email in todo;
        assert sane && email !in newSet ==> Holds(tag, oldSet, email);
        ghost var x, t := xray, touched;
        ok := RemoveIfGone(tag, email, oldSet, newSet);
        OneTouched(old(touched), t, touched, tag, oldSet, newSet, email);
        hide TouchesOnly, Holds, Drop;
        if !ok {
          return false;
        }
        if sane && email !in newSet {
          DropCells(x, tag, email);
        }
        todo := todo - {email};
      }
      ok := true;
    }

    /** The additions and changes have been made; an inbound Xray does not have had nothing to change. */
    ghost predicate Added(tag: string, before: Xray, oldSet: map<string, string>, newSet: map<string, string>)
      reads this
    {
      && Progress(tag, before, oldSet, newSet, {}, oldSet.Keys)
      && (tag !in xray.clients ==> oldSet == map[] && newSet == map[])
    }

    /** Brings one tag from its old client set to its new one. */
    method SyncTag(tag: string, oldSet: map<string, string>, newSet: map<string, string>) returns (ok: bool)
      modifies this`xray, this`lost, this`touched
      ensures lost >= old(lost) && (ok ==> lost == old(lost))
      ensures old(Serves(tag, oldSet, newSet)) ==>
                if ok then xray == Synced(old(xray), tag, newSet) else lost > old(lost)
      ensures TouchesOnly(old(touched), touched, tag, oldSet, newSet)
    {
      ok := AddAndChange(tag, oldSet, newSet);
      if !ok {
        return;
      }
      ghost var between := touched;
      ok := RemoveGone(tag, oldSet, newSet, old(xray));
      assert forall p :: p in touched && p !in old(touched) ==> p !in between || (p in between && p !in old(touched));
      if ok && old(Serves(tag, oldSet, newSet)) {
        SyncedTag(tag, old(xray), oldSet, newSet);
      }
    }

    lemma SyncedTag(tag: string, before: Xray, oldSet: map<string, string>, newSet: map<string, string>)
      requires Progress(tag, before, oldSet, newSet, {}, {})
      ensures before.Running? && xray == Synced(before, tag, newSet)
    {
      if tag in before.clients {
        forall e
          ensures e in xray.clients[tag] <==> e in newSet
          ensures e in newSet ==> xray.clients[tag][e] == newSet[e]
        {
          assert Cell(xray.clients, tag, e) == Expected(oldSet, newSet, {}, {}, e);
        }
        assert xray.clients[tag] == newSet;
        assert xray.clients == before.clients[tag := newSet];
      } else {
        assert xray.clients == before.clients;
      }
    }

    /** Xray serves the baseline's clients, on the managed tags that the new ones are on too. */
    ghost predicate Aligned(newClients: Clients)
      reads this
    {
      xray.Running? && xray.clients == clients && clients.Keys == newClients.Keys <= {TAG_TLS, TAG_REALITY}
    }

    /** Brings both managed tags from the baseline's clients to the new ones. */
    method SyncTags(newClients: Clients) returns (ok: bool)
      modifies this`xray, this`lost, this`touched
      ensures lost >= old(lost) && (ok ==> lost == old(lost))
      ensures old(Aligned(newClients)) ==>
                if ok then xray == Running(old(xray).skeleton, newClients) else lost > old(lost)
      ensures TouchesChanges(old(touched), touched, clients, newClients)
    {
      hide TouchesOnly, TouchesChanges, Synced;
      if old(Aligned(newClients)) {
        SyncedBoth(xray, newClients);
      }
      ok := SyncTag(TAG_TLS, Lookup(clients, TAG_TLS), Lookup(newClients, TAG_TLS));
      ghost var between := touched;
      TagTouches(old(touched), between, TAG_TLS, clients, newClients);
      if !ok {
        return;
      }
      ok := SyncTag(TAG_REALITY, Lookup(clients, TAG_REALITY), Lookup(newClients, TAG_REALITY));
      TagTouches(between, touched, TAG_REALITY, clients, newClients);
      BothTouch(old(touched), between, touched, clients, newClients);
      if !ok {
        return;
      }
    }

    /**
     Applies only the user delta, when nothing else changed relative to the baseline.
     It brings Xray to the document when the baseline describes Xray, and then it
     fails only for another skeleton or a lost call.
     */
    method LiveApply(doc: Json, parsed: Parsed) returns (ok: bool)
      requires HasInbounds(doc) && parsed == Parse(doc).value && file == Doc(doc) && Valid()
      modifies this`xray, this`lost, this`touched, this`skeleton, this`clients, this`sha, this`disk
      ensures Valid()
      ensures ok ==> Live() == disk == Update(doc)
      ensures !ok ==> skeleton == old(skeleton) && clients == old(clients) && sha == old(sha) && disk == old(disk)
      ensures lost >= old(lost) && (ok ==> lost == old(lost) && old(skeleton) == Some(parsed.skeleton))
      ensures old(Describes()) ==>
                if ok then xray == Load(file) else lost > old(lost) || old(skeleton) != Some(parsed.skeleton)
      ensures TouchesChanges(old(touched), touched, old(clients), parsed.clients)
      ensures old(skeleton) != Some(parsed.skeleton) ==> touched == old(touched)
    {
      if skeleton.None? || skeleton.value != parsed.skeleton {
        return false;
      }
      ghost var base := Live().doc;
      LoadParsed(base);
      LoadParsed(doc);
      SameTags(base, doc);
      ok := SyncTags(parsed.clients);
      if !ok {
        return;
      }
      skeleton, clients, sha := Some(parsed.skeleton), parsed.clients, Some(doc);
      disk := Update(doc);
    }

    /**
     Persists a configuration and reloads Xray: live if only users changed, otherwise
     by a restart. It may be called again in any state it leaves, also after a failed
     restart; an apply that succeeds from a baseline that describes Xray leaves Xray
     running the file. A change of users only never restarts Xray unless a call is
     lost, and nothing else is ever applied live.
     */
    method ApplyConfig(raw: Option<Json>, certMissing: bool) returns (ok: bool)
      requires Valid()
      modifies this
      ensures Valid() && last == raw
      ensures raw.None? ==> !ok && file == old(file) && xray == old(xray) && restarts == old(restarts)
      ensures raw.Some? ==> file == Doc(Strip(raw.value, certMissing))
      ensures ok ==> raw.Some? && (old(Describes()) ==> xray == Load(file))
      ensures ok && HasInbounds(raw.value) ==> Live() == disk == Update(Strip(raw.value, certMissing))
      ensures !ok ==> Live() == old(Live()) && disk == old(disk)
      ensures lost >= old(lost) && old(restarts) <= restarts <= old(restarts) + 1
      ensures UsersOnly(raw, certMissing, old(skeleton)) && old(Describes()) && lost == old(lost) ==>
                ok && xray == Load(file) && restarts == old(restarts)
      ensures raw.Some? && !UsersOnly(raw, certMissing, old(skeleton)) ==> restarts == old(restarts) + 1
      ensures raw.Some? && !ok ==> restarts == old(restarts) + 1
      ensures UsersOnly(raw, certMissing, old(skeleton)) ==>
                TouchesChanges(old(touched), touched, old(clients), Parse(Strip(raw.value, certMissing)).value.clients)
      ensures !UsersOnly(raw, certMissing, old(skeleton)) ==> touched == old(touched)
    {
      hide TouchesChanges, Load, Strip, Parse, HasInbounds;
      last := raw;
      if raw.None? {
        return false;
      }
      var doc := StripTlsIfNoCert(raw.value, certMissing);
      file := Doc(doc);
      var parsed := ParseClients(doc);
      ParsesIfListed(raw.value, certMissing);
      if parsed.Some? {
        ok := LiveApply(doc, parsed.value);
        if ok {
          return true;
        }
      }
      restarts := restarts + 1;
      var restarted: bool := *;
      if !restarted {
        return false;
      }
      xray := Load(file);
      if parsed.Some? {
        skeleton, clients, sha := Some(parsed.value.skeleton), parsed.value.clients, Some(doc);
        disk := Update(doc);
      }
      ok := true;
    }
  }

  /** Bringing one tag up to date and then the other brings both up to date. */
  lemma SyncedBoth(x: Xray, m: Clients)
    requires x.Running? && x.clients.Keys == m.Keys <= {TAG_TLS, TAG_REALITY}
    ensures var y := Synced(x, TAG_TLS, Lookup(m, TAG_TLS));
            && y.Running? && y.clients.Keys == x.clients.Keys
            && (TAG_REALITY in y.clients ==> y.clients[TAG_REALITY] == x.clients[TAG_REALITY])
            && Synced(y, TAG_REALITY, Lookup(m, TAG_REALITY)) == Running(x.skeleton, m)
  {
    Skeleton.TagsDiffer();
    var y := Synced(x, TAG_TLS, Lookup(m, TAG_TLS));
    assert Synced(y, TAG_REALITY, Lookup(m, TAG_REALITY)).clients == m;
  }

  /** Calls have been made since, on one tag, only for users that are added, removed or given another uuid. */
  ghost predicate TouchesOnly(before: set<(string, string)>, after: set<(string, string)>, tag: string,
                              oldSet: map<string, string>, newSet: map<string, string>) {
    forall p :: p in after && p !in before ==>
      p.0 == tag && ((p.1 in oldSet) != (p.1 in newSet) ||
                     (p.1 in oldSet && p.1 in newSet && oldSet[p.1] != newSet[p.1]))
  }

  lemma OneTouched(before: set<(string, string)>, after: set<(string, string)>, last: set<(string, string)>,
                   tag: string, oldSet: map<string, string>, newSet: map<string, string>, e: string)
    requires TouchesOnly(before, after, tag, oldSet, newSet)
    requires last == after || last == after + {(tag, e)}
    requires e in oldSet || e in newSet
    requires e in oldSet && e in newSet && oldSet[e] == newSet[e] ==> last == after
    ensures TouchesOnly(before, last, tag, oldSet, newSet)
  {
  }

  /** Calls have been made since only for users on whom the two client sets differ. */
  ghost predicate TouchesChanges(before: set<(string, string)>, after: set<(string, string)>, a: Clients, b: Clients) {
    forall p :: p in after && p !in before ==> Cell(a, p.0, p.1) != Cell(b, p.0, p.1)
  }

  lemma TagTouches(before: set<(string, string)>, after: set<(string, string)>, tag: string, a: Clients, b: Clients)
    requires TouchesOnly(before, after, tag, Lookup(a, tag), Lookup(b, tag))
    ensures TouchesChanges(before, after, a, b)
  {
  }

  lemma BothTouch(x: set<(string, string)>, y: set<(string, string)>, z: set<(string, string)>, a: Clients, b: Clients)
    requires TouchesChanges(x, y, a, b) && TouchesChanges(y, z, a, b)
    ensures TouchesChanges(x, z, a, b)
  {
  }

  /** An Xray with one more client, or one under another uuid. */
  function Put(x: Xray, tag: string, email: string, id: string): Xray
    requires x.Running? && tag in x.clients
  {
    Running(x.skeleton, x.clients[tag := x.clients[tag][email := id]])
  }

  /** An Xray with one client less. */
  function Drop(x: Xray, tag: string, email: string): Xray
    requires x.Running? && tag in x.clients
  {
    Running(x.skeleton, x.clients[tag := x.clients[tag] - {email}])
  }

  lemma DropCells(x: Xray, tag: string, email: string)
    requires x.Running? && tag in x.clients
    ensures var y := Drop(x, tag, email);
            && y.skeleton == x.skeleton && y.clients.Keys == x.clients.Keys
            && (forall t, e ::
                  Cell(y.clients, t, e) == if (t, e) == (tag, email) then None else Cell(x.clients, t, e))
            && forall t :: t in x.clients && t != tag ==> y.clients[t] == x.clients[t]
  {
  }

  lemma PutCells(x: Xray, tag: string, email: string, id: string)
    requires x.Running? && tag in x.clients
    ensures var y := Put(x, tag, email, id);
            && y.skeleton == x.skeleton && y.clients.Keys == x.clients.Keys
            && (forall t, e ::
                  Cell(y.clients, t, e) == if (t, e) == (tag, email) then Some(id) else Cell(x.clients, t, e))
            && forall t :: t in x.clients && t != tag ==> y.clients[t] == x.clients[t]
  {
  }

  lemma ParsesIfListed(doc: Json, certMissing: bool)
    ensures HasInbounds(Strip(doc, certMissing)) <==> HasInbounds(doc)
    ensures Parse(Strip(doc, certMissing)).Some? <==> HasInbounds(doc)
  {
  }

  /** A push that changes nothing but users: what is written has the skeleton of the baseline. */
  predicate UsersOnly(raw: Option<Json>, certMissing: bool, skeleton: Option<Json>) {
    raw.Some? && HasInbounds(Strip(raw.value, certMissing)) &&
    skeleton == Some(Parse(Strip(raw.value, certMissing)).value.skeleton)
  }

  /** Documents with one skeleton have their clients under the same tags, the managed ones. */
  lemma SameTags(a: Json, b: Json)
    requires HasInbounds(a) && HasInbounds(b) && Parse(a).value.skeleton == Parse(b).value.skeleton
    ensures Parse(a).value.clients.Keys == Parse(b).value.clients.Keys <= {TAG_TLS, TAG_REALITY}
  {
    SkeletonKeepsTags(a, b);
    forall t
      ensures t in Parse(b).value.clients ==> t == TAG_TLS || t == TAG_REALITY
    {
      OnlyManagedTags(InboundsOf(b), t);
    }
  }

  function Lookup(m: Clients, tag: string): map<string, string> {
    if tag in m then m[tag] else map[]
  }

  /** An Xray whose clients on `tag`, if it has that inbound, are exactly `newSet`. */
  function Synced(x: Xray, tag: string, newSet: map<string, string>): Xray
    requires x.Running?
  {
    Running(x.skeleton, if tag in x.clients then x.clients[tag := newSet] else x.clients)
  }
}
