/** helper.go: derived names, protocol lookups and slice helpers. */
module Helper {
  import opened Text
  import opened Marathon

  // ---- prettified application ids ----

  function PrettifyAppId(name: string, portIndex: nat, servicePort: nat): string
    requires |name| > 0
  {
    Replace(name[1..], '/', '.') + "-" + Dec(portIndex) + "-" + Dec(servicePort)
  }

  /**
   Reading a prettified id from its end: it splits at its last two hyphens into the name,
   without its first byte and with dots for slashes, and numerals of port index and service port.
   */
  lemma PrettifyReads(name: string, portIndex: nat, servicePort: nat) returns (stem: string, index: string, port: string)
    requires |name| > 0
    ensures PrettifyAppId(name, portIndex, servicePort) == stem + "-" + index + "-" + port
    ensures '-' !in index && '-' !in port && Digits(index) == Some(portIndex) && Digits(port) == Some(servicePort)
    ensures |stem| == |name| - 1
    ensures forall k :: 0 <= k < |stem| ==> stem[k] == if name[k + 1] == '/' then '.' else name[k + 1]
  {
    stem, index, port := Replace(name[1..], '/', '.'), Dec(portIndex), Dec(servicePort);
    DigitsOfDec(portIndex);
    DigitsOfDec(servicePort);
  }

  /** Equal, or one a slash and the other a dot. */
  predicate SlashDotEqual(a: string, b: string) {
    |a| == |b| && forall i :: 0 <= i < |a| ==> a[i] == b[i] || {a[i], b[i]} == {'/', '.'}
  }

  /** Two ids share a prettified form exactly when index and port agree and the names differ only in `/` against `.`. */
  lemma PrettifyCollides(n1: string, i1: nat, p1: nat, n2: string, i2: nat, p2: nat)
    requires |n1| > 0 && |n2| > 0
    ensures PrettifyAppId(n1, i1, p1) == PrettifyAppId(n2, i2, p2)
       <==> i1 == i2 && p1 == p2 && SlashDotEqual(n1[1..], n2[1..])
  {
    var r1, r2 := Replace(n1[1..], '/', '.'), Replace(n2[1..], '/', '.');
    if PrettifyAppId(n1, i1, p1) == PrettifyAppId(n2, i2, p2) {
      LastSeparator(r1 + "-" + Dec(i1), Dec(p1), r2 + "-" + Dec(i2), Dec(p2), '-');
      LastSeparator(r1, Dec(i1), r2, Dec(i2), '-');
      DecInjective(i1, i2);
      DecInjective(p1, p2);
      forall k | 0 <= k < |r1| ensures n1[1..][k] == n2[1..][k] || {n1[1..][k], n2[1..][k]} == {'/', '.'} {
        assert r1[k] == r2[k];
      }
    }
    if SlashDotEqual(n1[1..], n2[1..]) {
      forall k | 0 <= k < |r1| ensures r1[k] == r2[k] {
        var a, b := n1[1..][k], n2[1..][k];
        assert a == b || (a in {'/', '.'} && b in {'/', '.'});
      }
      assert r1 == r2;
    }
  }

  /** Marathon ids: rooted, and without dots. */
  predicate PlainId(id: string) { |id| > 0 && id[0] == '/' && '.' !in id }

  /** On plain ids the prettified id is a key, whatever hyphens and digits the names hold. */
  lemma PrettifyInjective(n1: string, i1: nat, p1: nat, n2: string, i2: nat, p2: nat)
    requires PlainId(n1) && PlainId(n2)
    requires PrettifyAppId(n1, i1, p1) == PrettifyAppId(n2, i2, p2)
    ensures n1 == n2 && i1 == i2 && p1 == p2
  {
    PrettifyCollides(n1, i1, p1, n2, i2, p2);
    forall k | 0 <= k < |n1| ensures n1[k] == n2[k] {
      if k > 0 {
        assert n1[1..][k - 1] == n1[k] && n2[1..][k - 1] == n2[k];
        assert '.' !in {n1[k], n2[k]};
      }
    }
  }

  /** A prettified id holds no slash, so no rooted id is a prefix of one. */
  lemma PrettifyHasNoSlash(name: string, portIndex: nat, servicePort: nat)
    requires |name| > 0
    ensures '/' !in PrettifyAppId(name, portIndex, servicePort)
  {
    var r := Replace(name[1..], '/', '.');
    assert forall k :: 0 <= k < |r| ==> r[k] != '/';
    assert PrettifyAppId(name, portIndex, servicePort) == r + ("-" + Dec(portIndex) + "-" + Dec(servicePort));
  }

  // ---- protocols ----

  function GetTransportProtocol(app: App, portIndex: nat): string {
    if |app.portDefinitions| > portIndex then app.portDefinitions[portIndex].protocol
    else if app.portMappings.Some? && |app.portMappings.value| > portIndex then Lower(app.portMappings.value[portIndex])
    else if |app.portDefinitions| > 0 then "tcp"
    else ""
  }

  function HealthCheckProtocol(checks: seq<HealthCheck>, portIndex: nat): string {
    if checks == [] then ""
    else if checks[0].portIndex == portIndex then Lower(checks[0].protocol)
    else HealthCheckProtocol(checks[1..], portIndex)
  }

  function GetApplicationProtocol(app: App, portIndex: nat): string {
    var named := Lower(Label(app.labels, "proto"));
    var check := HealthCheckProtocol(app.healthChecks, portIndex);
    var transport := GetTransportProtocol(app, portIndex);
    if named != "" then named else if check != "" then check else if transport != "" then transport else "tcp"
  }

  /** A port definition's own protocol, else the lower-cased one of a port mapping, else TCP if any port is defined. */
  lemma TransportIs(app: App, i: nat)
    ensures var defined, protocol := |app.portDefinitions|, GetTransportProtocol(app, i);
            if i < defined then protocol == app.portDefinitions[i].protocol
            else if app.portMappings.Some? && i < |app.portMappings.value| then protocol == Lower(app.portMappings.value[i])
            else protocol == if defined == 0 then "" else "tcp"
  {}

  /** Check `k` is the first one for this port. */
  ghost predicate FirstCheck(checks: seq<HealthCheck>, portIndex: nat, k: nat) {
    k < |checks| && checks[k].portIndex == portIndex && forall j :: 0 <= j < k ==> checks[j].portIndex != portIndex
  }

  lemma {:induction false} HealthCheckIs(checks: seq<HealthCheck>, i: nat)
    ensures forall k: nat :: FirstCheck(checks, i, k) ==> HealthCheckProtocol(checks, i) == Lower(checks[k].protocol)
    ensures (forall k :: 0 <= k < |checks| ==> checks[k].portIndex != i) ==> HealthCheckProtocol(checks, i) == ""
  {
    if checks != [] && checks[0].portIndex != i {
      HealthCheckIs(checks[1..], i);
      forall k: nat | FirstCheck(checks, i, k) ensures HealthCheckProtocol(checks, i) == Lower(checks[k].protocol) {
        assert FirstCheck(checks[1..], i, k - 1);
      }
    }
  }

  /** No named or checked protocol for the port. */
  ghost predicate NoProtocol(app: App, i: nat) {
    && ("proto" !in app.labels || app.labels["proto"] == "")
    && forall k: nat :: FirstCheck(app.healthChecks, i, k) ==> app.healthChecks[k].protocol == ""
  }

  /** The label comes first, then the port's first health check, both lower-cased, then the transport protocol, then TCP. */
  lemma ApplicationIs(app: App, i: nat)
    ensures "proto" in app.labels && app.labels["proto"] != "" ==> GetApplicationProtocol(app, i) == Lower(app.labels["proto"])
    ensures "proto" !in app.labels || app.labels["proto"] == "" ==>
              forall k: nat :: FirstCheck(app.healthChecks, i, k) && app.healthChecks[k].protocol != "" ==>
                GetApplicationProtocol(app, i) == Lower(app.healthChecks[k].protocol)
    ensures NoProtocol(app, i) ==>
              GetApplicationProtocol(app, i) == if GetTransportProtocol(app, i) != "" then GetTransportProtocol(app, i) else "tcp"
  {
    LowerIs(Label(app.labels, "proto"));
    HealthCheckIs(app.healthChecks, i);
    if k: nat :| k < |app.healthChecks| && app.healthChecks[k].portIndex == i {
      var first := FirstOf(app.healthChecks, i, k);
      LowerIs(app.healthChecks[first].protocol);
    }
  }

  lemma {:induction false} FirstOf(checks: seq<HealthCheck>, i: nat, k: nat) returns (first: nat)
    requires k < |checks| && checks[k].portIndex == i
    ensures FirstCheck(checks, i, first)
  {
    if j: nat :| j < k && checks[j].portIndex == i { first := FirstOf(checks, i, j); } else { first := k; }
  }

  // ---- slices ----

  /** makeStringArray: an empty label is no entry at all, any other is cut at every comma. */
  function MakeStringArray(s: string): (r: seq<string>)
    ensures r == [] <==> s == ""
    ensures s != "" ==> Join(r, ',') == s
    ensures forall entry :: entry in r ==> ',' !in entry
  {
    if s == "" then [] else JoinSplit(s, ','); SplitPartsClean(s, ','); Split(s, ',')
  }

  method Contains(slice: seq<string>, item: string) returns (found: bool)
    ensures found <==> item in slice
  {
    for i := 0 to |slice|
      invariant item !in slice[..i]
    {
      if slice[i] == item { return true; }
    }
    return false;
  }

  ghost function Without(slice1: seq<string>, slice2: seq<string>): (r: seq<string>)
    ensures forall x :: x in r <==> x in slice1 && x !in slice2
  {
    if slice1 == [] then []
    else
      var n := |slice1| - 1;
      assert slice1 == slice1[..n] + [slice1[n]];
      Without(slice1[..n], slice2) + if slice1[n] in slice2 then [] else [slice1[n]]
  }

  /** FindMissing: the items of slice1 that slice2 lacks, in slice1's order. */
  method FindMissing(slice1: seq<string>, slice2: seq<string>) returns (missing: seq<string>)
    ensures missing == Without(slice1, slice2)
    ensures forall x :: x in missing <==> x in slice1 && x !in slice2
  {
    missing := [];
    for i := 0 to |slice1|
      invariant missing == Without(slice1[..i], slice2)
    {
      var found := Contains(slice2, slice1[i]);
      assert slice1[..i + 1][..i] == slice1[..i];
      if !found { missing := missing + [slice1[i]]; }
    }
    assert slice1[..|slice1|] == slice1;
  }
}
