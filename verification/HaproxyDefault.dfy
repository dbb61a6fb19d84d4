/** The default vhost, which is not incremental: what a batch leaves, what a run leaves, and when they agree. */
module HaproxyDefault {
  import opened Text
  import opened Marathon
  import opened Helper
  import opened Gateway
  import opened HaproxyState
  import opened HaproxyBatch

  // ---- one update ----

  ghost predicate Claims(app: App, scheme: Scheme, i: nat)
    requires i < |app.portDefinitions|
  {
    HostList(app, scheme, i) != [] && Label(app.portDefinitions[i].labels, DefaultLabel(scheme)) == "1"
  }

  /** The key of the last of the first `n` ports that asks to be the default. */
  ghost function ClaimedDefault(env: Env, app: App, scheme: Scheme, n: nat): Option<string>
    requires n <= |app.portDefinitions|
  {
    if n == 0 then None
    else if Exposed(env, app, n - 1) && Claims(app, scheme, n - 1) then Some(Key(app, n - 1))
    else ClaimedDefault(env, app, scheme, n - 1)
  }

  /** One of the first `n` ports has this key and no vhosts any more. */
  ghost predicate Withdrawn(env: Env, app: App, scheme: Scheme, n: nat, key: string)
    requires n <= |app.portDefinitions|
  {
    n > 0 && (Withdrawn(env, app, scheme, n - 1, key) ||
      (Exposed(env, app, n - 1) && Key(app, n - 1) == key && HostList(app, scheme, n - 1) == []))
  }

  lemma {:induction false} ClaimedIsOwn(env: Env, app: App, scheme: Scheme, n: nat)
    requires n <= |app.portDefinitions| && ClaimedDefault(env, app, scheme, n).Some?
    ensures OwnKey(env, app, n, ClaimedDefault(env, app, scheme, n).value)
  {
    if !(Exposed(env, app, n - 1) && Claims(app, scheme, n - 1)) { ClaimedIsOwn(env, app, scheme, n - 1); }
  }

  lemma ClaimedIsEarlier(env: Env, app: App, scheme: Scheme, n: nat)
    requires n < |app.portDefinitions| && ClaimedDefault(env, app, scheme, n).Some?
    ensures ClaimedDefault(env, app, scheme, n).value != Key(app, n)
  {
    ClaimedIsOwn(env, app, scheme, n);
    var i :| 0 <= i < n && Exposed(env, app, i) && Key(app, i) == ClaimedDefault(env, app, scheme, n).value;
    if Key(app, i) == Key(app, n) { KeyNamesPort(app, i, app, n); }
  }

  /** One port's step on a default of which the earlier ports are known. */
  lemma OneMoreDefault(start: string, before: string, claimed: Option<string>, withdrawn: bool, key: string,
      t: VhostTable, hosts: seq<string>, asks: bool)
    requires before == (if claimed.Some? then claimed.value else if withdrawn then "" else start)
    requires key != "" && claimed != Some(key) && t.default_ == before
    ensures Publish(t, key, hosts, asks).default_
         == if hosts != [] && asks then key
            else if claimed.Some? then claimed.value
            else if withdrawn || (hosts == [] && start == key) then "" else start
  {}

  /** An exposed port after the ports before it. */
  lemma DefaultAfterPort(env: Env, app: App, scheme: Scheme, t: VhostTable, n: nat)
    requires n < |app.portDefinitions| && Exposed(env, app, n)
    requires var claimed := ClaimedDefault(env, app, scheme, n);
             PublishPorts(env, app, scheme, t, n).default_
               == if claimed.Some? then claimed.value else if Withdrawn(env, app, scheme, n, t.default_) then "" else t.default_
    ensures var claimed := ClaimedDefault(env, app, scheme, n + 1);
            PublishPorts(env, app, scheme, t, n + 1).default_
              == if claimed.Some? then claimed.value
                 else if Withdrawn(env, app, scheme, n + 1, t.default_) then "" else t.default_
  {
    var before, claimed := PublishPorts(env, app, scheme, t, n), ClaimedDefault(env, app, scheme, n);
    KeyIsNotEmpty(app, n);
    if claimed.Some? { ClaimedIsEarlier(env, app, scheme, n); }
    OneMoreDefault(t.default_, before.default_, claimed, Withdrawn(env, app, scheme, n, t.default_),
                   Key(app, n), before, HostList(app, scheme, n),
                   Label(app.portDefinitions[n].labels, DefaultLabel(scheme)) == "1");
  }

  /** The default after an update: claimed anew, or withdrawn, or whatever it was. */
  lemma {:induction false} DefaultAfterPorts(env: Env, app: App, scheme: Scheme, t: VhostTable, n: nat)
    requires n <= |app.portDefinitions|
    ensures var claimed := ClaimedDefault(env, app, scheme, n);
            PublishPorts(env, app, scheme, t, n).default_
              == if claimed.Some? then claimed.value else if Withdrawn(env, app, scheme, n, t.default_) then "" else t.default_
  {
    if n > 0 {
      DefaultAfterPorts(env, app, scheme, t, n - 1);
      if Exposed(env, app, n - 1) { DefaultAfterPort(env, app, scheme, t, n - 1); }
    }
  }

  lemma KeyIsNotEmpty(app: App, i: nat)
    requires i < |app.portDefinitions|
    ensures Key(app, i) != ""
  {
    assert |Key(app, i)| >= |Dec(app.portDefinitions[i].port)|;
  }

  lemma {:induction false} WithdrawnIsOwn(env: Env, app: App, scheme: Scheme, n: nat, key: string)
    requires n <= |app.portDefinitions| && Withdrawn(env, app, scheme, n, key)
    ensures OwnKey(env, app, n, key) && key != ""
  {
    if Withdrawn(env, app, scheme, n - 1, key) { WithdrawnIsOwn(env, app, scheme, n - 1, key); }
    else { KeyIsNotEmpty(app, n - 1); }
  }

  // ---- the default of a batch ----

  /** The key under which an application asks to be the default, if it does. */
  ghost function Claim(env: Env, app: App, scheme: Scheme): Option<string> {
    ClaimedDefault(env, app, scheme, |app.portDefinitions|)
  }

  lemma ClaimIsOwn(env: Env, app: App, scheme: Scheme)
    requires Claim(env, app, scheme).Some?
    ensures Owns(env, app, Claim(env, app, scheme).value) && Claim(env, app, scheme).value != ""
  {
    ClaimedIsOwn(env, app, scheme, |app.portDefinitions|);
    var i :| 0 <= i < |app.portDefinitions| && Exposed(env, app, i) && Key(app, i) == Claim(env, app, scheme).value;
    KeyIsNotEmpty(app, i);
  }

  lemma OneOwner(env: Env, apps: seq<App>, j: nat, k: nat, key: string)
    requires Separate(env, apps) && j < |apps| && k < |apps| && Owns(env, apps[j], key) && Owns(env, apps[k], key)
    ensures j == k
  {
    var v := SnapshotsOf(apps, |apps|);
    SnapshotsMember(apps, |apps|);
    assert v[apps[j].id] == apps[j] && v[apps[k].id] == apps[k];
    assert apps[j].id == apps[k].id;
  }

  ghost function AllClaimsOf(env: Env, apps: seq<App>, scheme: Scheme): (claims: seq<Option<string>>)
    ensures |claims| == |apps|
  {
    seq(|apps|, k requires 0 <= k < |apps| => Claim(env, apps[k], scheme))
  }

  function LastSome(claims: seq<Option<string>>, n: nat): Option<string>
    requires n <= |claims|
  {
    if n == 0 then None else if claims[n - 1].Some? then claims[n - 1] else LastSome(claims, n - 1)
  }

  lemma {:induction false} LastSomeAt(claims: seq<Option<string>>, n: nat, j: nat)
    requires j < n <= |claims| && claims[j].Some? && forall k :: j < k < n ==> claims[k].None?
    ensures LastSome(claims, n) == claims[j]
  {
    if j < n - 1 { LastSomeAt(claims, n - 1, j); }
  }

  /** The position of the last claim, or `n`. */
  lemma {:induction false} LastSomePosition(claims: seq<Option<string>>, n: nat) returns (j: nat)
    requires n <= |claims|
    ensures j <= n && forall k :: 0 <= k < n && (j == n || j < k) ==> claims[k].None?
    ensures LastSome(claims, n) == if j < n then claims[j] else None
    ensures j < n ==> claims[j].Some?
  {
    if n == 0 {
      j := 0;
    } else if claims[n - 1].Some? {
      j := n - 1;
    } else {
      j := LastSomePosition(claims, n - 1);
      if j == n - 1 { j := n; }
    }
  }

  /** The claim of the last of the first `n` applications that makes one. */
  ghost function LastClaim(env: Env, apps: seq<App>, scheme: Scheme, n: nat): Option<string>
    requires n <= |apps|
  {
    LastSome(AllClaimsOf(env, apps, scheme), n)
  }

  lemma LastClaimStep(env: Env, apps: seq<App>, scheme: Scheme, n: nat)
    requires 0 < n <= |apps|
    ensures LastClaim(env, apps, scheme, n)
         == if Claim(env, apps[n - 1], scheme).Some? then Claim(env, apps[n - 1], scheme) else LastClaim(env, apps, scheme, n - 1)
  {}

  lemma LastClaimAt(env: Env, apps: seq<App>, scheme: Scheme, n: nat, j: nat)
    requires j < n <= |apps| && Claim(env, apps[j], scheme).Some?
    requires forall k :: j < k < n ==> Claim(env, apps[k], scheme).None?
    ensures LastClaim(env, apps, scheme, n) == Claim(env, apps[j], scheme)
  {
    LastSomeAt(AllClaimsOf(env, apps, scheme), n, j);
  }

  lemma LastClaimer(env: Env, apps: seq<App>, scheme: Scheme, n: nat) returns (j: nat)
    requires n <= |apps|
    ensures j <= n && forall k :: 0 <= k < n && (j == n || j < k) ==> Claim(env, apps[k], scheme).None?
    ensures LastClaim(env, apps, scheme, n) == if j < n then Claim(env, apps[j], scheme) else None
    ensures j < n ==> Claim(env, apps[j], scheme).Some?
  {
    var claims: seq<Option<string>> := AllClaimsOf(env, apps, scheme);
    j := LastSomePosition(claims, n);
    assert forall k :: 0 <= k < n ==> claims[k] == Claim(env, apps[k], scheme);
  }

  lemma AppliedTable(env: Env, apps: seq<App>, scheme: Scheme, n: nat)
    requires 0 < n <= |apps|
    ensures TableIn(ApplyFirst(env, apps, n), scheme)
         == PublishApp(env, apps[n - 1], scheme, TableIn(ApplyFirst(env, apps, n - 1), scheme))
  {}

  /** The update withdraws the default, whose port has no vhosts any more. */
  ghost predicate Withdraws(env: Env, app: App, scheme: Scheme, key: string) {
    Withdrawn(env, app, scheme, |app.portDefinitions|, key)
  }

  lemma DefaultAfterApp(env: Env, app: App, scheme: Scheme, t: VhostTable)
    ensures var claimed := Claim(env, app, scheme);
            PublishApp(env, app, scheme, t).default_
              == if claimed.Some? then claimed.value else if Withdraws(env, app, scheme, t.default_) then "" else t.default_
  {
    DefaultAfterPorts(env, app, scheme, t, |app.portDefinitions|);
  }

  /** Nobody withdraws the claim of another. */
  lemma EarlierClaimStays(env: Env, apps: seq<App>, scheme: Scheme, n: nat)
    requires n < |apps| && Separate(env, apps)
    ensures !Withdraws(env, apps[n], scheme, LastClaim(env, apps, scheme, n).GetOr(""))
  {
    var default_ := LastClaim(env, apps, scheme, n).GetOr("");
    if Withdraws(env, apps[n], scheme, default_) {
      WithdrawnIsOwn(env, apps[n], scheme, |apps[n].portDefinitions|, default_);
      var j := LastClaimer(env, apps, scheme, n);
      ClaimIsOwn(env, apps[j], scheme);
      OneOwner(env, apps, j, n, default_);
    }
  }

  /** The default as the batch goes on. */
  ghost function DefaultAfter(env: Env, apps: seq<App>, scheme: Scheme, n: nat): string
    requires n <= |apps|
  {
    if n == 0 then ""
    else
      var before, claimed := DefaultAfter(env, apps, scheme, n - 1), Claim(env, apps[n - 1], scheme);
      if claimed.Some? then claimed.value else if Withdraws(env, apps[n - 1], scheme, before) then "" else before
  }

  lemma {:induction false} TableDefault(env: Env, apps: seq<App>, scheme: Scheme, n: nat)
    requires n <= |apps|
    ensures TableIn(ApplyFirst(env, apps, n), scheme).default_ == DefaultAfter(env, apps, scheme, n)
  {
    if n == 0 {
      assert ApplyFirst(env, apps, 0) == EMPTY;
    } else {
      TableDefault(env, apps, scheme, n - 1);
      AppliedTable(env, apps, scheme, n);
      DefaultAfterApp(env, apps[n - 1], scheme, TableIn(ApplyFirst(env, apps, n - 1), scheme));
    }
  }

  lemma {:induction false} DefaultIsLastClaim(env: Env, apps: seq<App>, scheme: Scheme, n: nat)
    requires n <= |apps| && Separate(env, apps)
    ensures DefaultAfter(env, apps, scheme, n) == LastClaim(env, apps, scheme, n).GetOr("")
  {
    if n > 0 {
      DefaultIsLastClaim(env, apps, scheme, n - 1);
      LastClaimStep(env, apps, scheme, n);
      EarlierClaimStays(env, apps, scheme, n - 1);
      assert !Withdraws(env, apps[n - 1], scheme, DefaultAfter(env, apps, scheme, n - 1));
    }
  }

  /** A batch leaves the last claim as the default. */
  lemma BatchDefault(env: Env, apps: seq<App>, scheme: Scheme)
    requires Separate(env, apps)
    ensures TableIn(ApplyApps(env, apps), scheme).default_ == LastClaim(env, apps, scheme, |apps|).GetOr("")
  {
    TableDefault(env, apps, scheme, |apps|);
    DefaultIsLastClaim(env, apps, scheme, |apps|);
  }

  /** Position `i` of a batch is updated: when an update leaves the default of a fresh batch. */
  ghost predicate DefaultFollows(env: Env, apps: seq<App>, i: nat, app: App, scheme: Scheme, default_: string)
    requires i < |apps|
  {
    if Claim(env, app, scheme).Some? then forall k :: i < k < |apps| ==> Claim(env, apps[k], scheme).None?
    else
      || !Owns(env, apps[i], default_)
      || (Withdraws(env, app, scheme, default_) && forall k :: 0 <= k < |apps| && k != i ==> Claim(env, apps[k], scheme).None?)
  }

  lemma ClaimingUpdate(env: Env, apps: seq<App>, i: nat, app: App, scheme: Scheme)
    requires i < |apps| && Separate(env, apps[i := app]) && Claim(env, app, scheme).Some?
    ensures LastClaim(env, apps[i := app], scheme, |apps|) == Claim(env, app, scheme)
       <==> forall k :: i < k < |apps| ==> Claim(env, apps[k], scheme).None?
  {
    var after := apps[i := app];
    var j := LastClaimer(env, after, scheme, |apps|);
    assert after[i] == app && forall k :: 0 <= k < |apps| && k != i ==> after[k] == apps[k];
    ClaimIsOwn(env, after[j], scheme);
    ClaimIsOwn(env, app, scheme);
    if Claim(env, after[j], scheme) == Claim(env, app, scheme) { OneOwner(env, after, i, j, Claim(env, app, scheme).value); }
  }

  /** An update that claims nothing, of an application that is not the default. */
  lemma UpdateOfAnother(env: Env, apps: seq<App>, i: nat, app: App, scheme: Scheme, default_: string)
    requires i < |apps| && Separate(env, apps) && Separate(env, apps[i := app]) && Claim(env, app, scheme).None?
    requires default_ == LastClaim(env, apps, scheme, |apps|).GetOr("") && !Owns(env, apps[i], default_)
    ensures LastClaim(env, apps[i := app], scheme, |apps|).GetOr("") == default_ && !Withdraws(env, app, scheme, default_)
  {
    var after := apps[i := app];
    assert after[i] == app && forall k :: 0 <= k < |apps| && k != i ==> after[k] == apps[k];
    var j := LastClaimer(env, apps, scheme, |apps|);
    var l := LastClaimer(env, after, scheme, |apps|);
    if j < |apps| {
      ClaimIsOwn(env, apps[j], scheme);
      LastClaimAt(env, after, scheme, |apps|, j);
    }
    if Withdraws(env, app, scheme, default_) {
      WithdrawnIsOwn(env, app, scheme, |app.portDefinitions|, default_);
      OneOwner(env, after, i, j, default_);
    }
  }

  /** An update that claims nothing, of the application that is the default. */
  lemma UpdateOfDefault(env: Env, apps: seq<App>, i: nat, app: App, scheme: Scheme, default_: string)
    requires i < |apps| && Separate(env, apps) && Separate(env, apps[i := app]) && Claim(env, app, scheme).None?
    requires Owns(env, apps[i], default_) && default_ != ""
    ensures LastClaim(env, apps[i := app], scheme, |apps|).GetOr("") != default_
    ensures LastClaim(env, apps[i := app], scheme, |apps|).GetOr("") == ""
       <==> forall k :: 0 <= k < |apps| && k != i ==> Claim(env, apps[k], scheme).None?
  {
    var after := apps[i := app];
    assert after[i] == app && forall k :: 0 <= k < |apps| && k != i ==> after[k] == apps[k];
    var l := LastClaimer(env, after, scheme, |apps|);
    if l < |apps| {
      ClaimIsOwn(env, after[l], scheme);
      if Claim(env, after[l], scheme).value == default_ { OneOwner(env, apps, i, l, default_); }
    }
  }

  lemma OwnedIsNotEmpty(env: Env, app: App, key: string)
    requires Owns(env, app, key)
    ensures key != ""
  {
    var i :| 0 <= i < |app.portDefinitions| && Exposed(env, app, i) && Key(app, i) == key;
    KeyIsNotEmpty(app, i);
  }

  /**
   The default is not incremental. A table whose default is that of a batch of `apps`
   still has it after an update of position `i` exactly when the update claims it and
   nobody later does, or claims nothing and the default was another's, or withdraws the
   default and nobody else claims it.
   */
  lemma DefaultEqualsBatchIff(env: Env, apps: seq<App>, i: nat, app: App, scheme: Scheme, t: VhostTable)
    requires i < |apps| && app.id == apps[i].id && Separate(env, apps) && Separate(env, apps[i := app])
    requires t.default_ == TableIn(ApplyApps(env, apps), scheme).default_
    ensures PublishApp(env, app, scheme, t).default_ == TableIn(ApplyApps(env, apps[i := app]), scheme).default_
       <==> DefaultFollows(env, apps, i, app, scheme, t.default_)
  {
    BatchDefault(env, apps, scheme);
    BatchDefault(env, apps[i := app], scheme);
    DefaultAfterApp(env, app, scheme, t);
    if Claim(env, app, scheme).Some? {
      ClaimIsOwn(env, app, scheme);
      ClaimingUpdate(env, apps, i, app, scheme);
    } else if Owns(env, apps[i], t.default_) {
      OwnedIsNotEmpty(env, apps[i], t.default_);
      UpdateOfDefault(env, apps, i, app, scheme, t.default_);
    } else {
      UpdateOfAnother(env, apps, i, app, scheme, t.default_);
    }
  }

  /** Apply followed by one Update, in both tables: the reading of the condition for the manager's state. */
  lemma UpdateAfterApplyDefaultIff(env: Env, apps: seq<App>, i: nat, app: App, scheme: Scheme)
    requires i < |apps| && app.id == apps[i].id && Separate(env, apps) && Separate(env, apps[i := app])
    ensures TableIn(UpdateApp(env, ApplyApps(env, apps), app), scheme).default_
         == TableIn(ApplyApps(env, apps[i := app]), scheme).default_
       <==> DefaultFollows(env, apps, i, app, scheme, TableIn(ApplyApps(env, apps), scheme).default_)
  {
    DefaultEqualsBatchIff(env, apps, i, app, scheme, TableIn(ApplyApps(env, apps), scheme));
  }

  // ---- whole runs ----

  /** The claim of snapshot `k` stands: no later one claims, and none withdraws it. */
  ghost predicate Stands(env: Env, log: seq<App>, scheme: Scheme, n: nat, k: nat)
    requires n <= |log|
  {
    && k < n && Claim(env, log[k], scheme).Some?
    && forall j :: k < j < n ==>
         Claim(env, log[j], scheme).None? && !Withdraws(env, log[j], scheme, Claim(env, log[k], scheme).value)
  }

  lemma StandsEarlier(env: Env, log: seq<App>, scheme: Scheme, n: nat, k: nat)
    requires 0 < n <= |log| && k < n - 1
    ensures Stands(env, log, scheme, n, k) <==>
              Stands(env, log, scheme, n - 1, k) && Claim(env, log[n - 1], scheme).None?
              && !Withdraws(env, log[n - 1], scheme, Claim(env, log[k], scheme).value)
  {}

  lemma LastStands(env: Env, log: seq<App>, scheme: Scheme, n: nat)
    requires 0 < n <= |log| && Claim(env, log[n - 1], scheme).Some?
    ensures Stands(env, log, scheme, n, n - 1)
  {}

  lemma DefaultStep(env: Env, log: seq<App>, scheme: Scheme, n: nat)
    requires 0 < n <= |log|
    ensures var before, claimed := DefaultAfter(env, log, scheme, n - 1), Claim(env, log[n - 1], scheme);
            DefaultAfter(env, log, scheme, n)
              == if claimed.Some? then claimed.value else if Withdraws(env, log[n - 1], scheme, before) then "" else before
  {}

  lemma {:induction false} StandingDecides(env: Env, log: seq<App>, scheme: Scheme, n: nat, k: nat)
    requires n <= |log| && Stands(env, log, scheme, n, k)
    ensures DefaultAfter(env, log, scheme, n) == Claim(env, log[k], scheme).value
  {
    DefaultStep(env, log, scheme, n);
    if k < n - 1 {
      StandsEarlier(env, log, scheme, n, k);
      StandingDecides(env, log, scheme, n - 1, k);
    }
  }

  /** A default that is set is a claim that stands. */
  lemma {:induction false} DefaultStands(env: Env, log: seq<App>, scheme: Scheme, n: nat) returns (k: nat)
    requires n <= |log| && DefaultAfter(env, log, scheme, n) != ""
    ensures Stands(env, log, scheme, n, k)
  {
    DefaultStep(env, log, scheme, n);
    if Claim(env, log[n - 1], scheme).Some? {
      k := n - 1;
      LastStands(env, log, scheme, n);
    } else {
      k := DefaultStands(env, log, scheme, n - 1);
      StandingDecides(env, log, scheme, n - 1, k);
      StandsEarlier(env, log, scheme, n, k);
    }
  }

  /** This is the claim that stands, if there is one. */
  ghost predicate ClaimStands(env: Env, log: seq<App>, scheme: Scheme, wanted: Option<string>) {
    if wanted.None? then forall k: nat :: !Stands(env, log, scheme, |log|, k)
    else exists k: nat :: Stands(env, log, scheme, |log|, k) && Claim(env, log[k], scheme) == wanted
  }

  lemma DefaultIsStanding(env: Env, log: seq<App>, scheme: Scheme, wanted: Option<string>)
    requires wanted != Some("")
    ensures DefaultAfter(env, log, scheme, |log|) == wanted.GetOr("") <==> ClaimStands(env, log, scheme, wanted)
  {
    forall k: nat | Stands(env, log, scheme, |log|, k)
      ensures DefaultAfter(env, log, scheme, |log|) == Claim(env, log[k], scheme).value != ""
    {
      StandingDecides(env, log, scheme, |log|, k);
      ClaimIsOwn(env, log[k], scheme);
    }
    if DefaultAfter(env, log, scheme, |log|) != "" {
      var k := DefaultStands(env, log, scheme, |log|);
    }
  }

  lemma LastClaimIsNotEmpty(env: Env, apps: seq<App>, scheme: Scheme)
    ensures LastClaim(env, apps, scheme, |apps|) != Some("")
  {
    var j := LastClaimer(env, apps, scheme, |apps|);
    if j < |apps| { ClaimIsOwn(env, apps[j], scheme); }
  }

  lemma RunDefault(env: Env, log: seq<App>, st: State, events: seq<Event>, scheme: Scheme)
    requires Replays(env, log, st)
    ensures var configured := LogAll(log, events);
            TableIn(Run(env, st, events), scheme).default_ == DefaultAfter(env, configured, scheme, |configured|)
  {
    var configured := LogAll(log, events);
    RunReplays(env, log, st, events);
    TableDefault(env, configured, scheme, |configured|);
    assert TableIn(Run(env, st, events), scheme) == TableIn(ApplyApps(env, configured), scheme);
  }

  /**
   The default after any run is the last claim since the last Apply that nobody withdrew
   since, or empty; it is that of a batch exactly when that claim is the batch's last one.
   */
  lemma {:induction false} RunDefaultEqualsBatchIff(env: Env, log: seq<App>, st: State, events: seq<Event>,
      final: seq<App>, scheme: Scheme)
    requires Replays(env, log, st) && Separate(env, final)
    ensures TableIn(Run(env, st, events), scheme).default_ == TableIn(ApplyApps(env, final), scheme).default_
       <==> ClaimStands(env, LogAll(log, events), scheme, LastClaim(env, final, scheme, |final|))
  {
    RunDefault(env, log, st, events, scheme);
    BatchDefault(env, final, scheme);
    LastClaimIsNotEmpty(env, final, scheme);
    DefaultIsStanding(env, LogAll(log, events), scheme, LastClaim(env, final, scheme, |final|));
  }

  // ---- an instance ----

  lemma OnePortDefault(env: Env, labels: Labels, t: VhostTable)
    requires "*" in env.groups && Label(labels, "lb-vhost") != ""
    ensures PublishApp(env, OnePort(80, labels), Http, t).default_
         == if Label(labels, "lb-vhost-default") == "1" then Key(OnePort(80, labels), 0) else t.default_
  {
    var app := OnePort(80, labels);
    assert Exposed(env, app, 0);
    assert PublishPorts(env, app, Http, t, 0) == t;
  }

  /** For instance, dropping the label alone leaves the old default where a fresh batch has none. */
  lemma DroppedLabelSticks(env: Env)
    requires "*" in env.groups
    ensures var first := OnePort(80, map["lb-vhost" := "h", "lb-vhost-default" := "1"]);
            var second := OnePort(80, map["lb-vhost" := "h"]);
            && UpdateApp(env, ApplyApps(env, [first]), second).http.default_ == Key(first, 0) != ""
            && ApplyApps(env, [second]).http.default_ == ""
  {
    var labelled, bare := map["lb-vhost" := "h", "lb-vhost-default" := "1"], map["lb-vhost" := "h"];
    var first, second := OnePort(80, labelled), OnePort(80, bare);
    KeyIsNotEmpty(first, 0);
    OnePortDefault(env, labelled, EMPTY.http);
    OnePortDefault(env, bare, EMPTY.http);
    OnePortDefault(env, bare, ApplyApps(env, [first]).http);
    OneIsSeparate(env, first);
    OneIsSeparate(env, second);
  }
}
