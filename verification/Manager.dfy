/**
 The manager of the XDP program and its two features (client/internal/ebpf/ebpf/manager_linux.go,
 wg_proxy_linux.go, dns_fwd_linux.go).  Every call into the kernel can fail; which ones do is an input.
 */
module Manager {
  import opened Wrappers
  import opened Xdp

  /** Which kernel calls of one operation succeed. */
  datatype Calls = Calls(memlock: bool, interface: bool, load: bool, attach: bool,
                         put1: bool, put2: bool, putFlags: bool, closeObjects: bool, closeLink: bool)
  {
    predicate AllGood() {
      memlock && interface && load && attach && put1 && put2 && putFlags && closeObjects && closeLink
    }
  }

  /** The kernel's maps; a setting is None until it is written after the program was loaded. */
  datatype Maps = Maps(features: set<Feature>, proxyPort: Option<U16>, wgPort: Option<U16>, dnsIp: Option<U32>, dnsPort: Option<U16>)

  datatype State = State(flags: set<Feature>, attached: bool, maps: Maps)

  datatype Step =
    | LoadWgProxy(proxyPort: int, wgPort: int, calls: Calls)
    | LoadDnsFwd(ip: U32, dnsPort: int, calls: Calls)
    | Free(feature: Feature, calls: Calls)

  const NO_MAPS: Maps := Maps({}, None, None, None, None)

  ghost function Init(): State {
    State({}, false, NO_MAPS)
  }

  predicate CanLoad(c: Calls) {
    c.memlock && c.interface && c.load && c.attach
  }

  /** `loadXdp`: nothing to do if attached; otherwise fresh maps, attached if all four calls succeed. */
  ghost function LoadXdpNext(s: State, c: Calls): State {
    if s.attached then s
    else if !(c.memlock && c.interface && c.load) then s
    else s.(maps := NO_MAPS, attached := c.attach)
  }

  ghost function SetFlag(s: State, feature: Feature, c: Calls): State {
    var flags := s.flags + {feature};
    s.(flags := flags, maps := if c.putFlags then s.maps.(features := flags) else s.maps)
  }

  ghost function LoadWgNext(s: State, proxyPort: int, wgPort: int, c: Calls): State {
    var t := LoadXdpNext(s, c);
    if !t.attached || !c.put1 then t
    else
      var u := t.(maps := t.maps.(proxyPort := Some(proxyPort % 0x1_0000)));
      if !c.put2 then u
      else SetFlag(u.(maps := u.maps.(wgPort := Some(wgPort % 0x1_0000))), WgProxy, c)
  }

  ghost function LoadDnsNext(s: State, ip: U32, dnsPort: int, c: Calls): State {
    var t := LoadXdpNext(s, c);
    if !t.attached || !c.put1 then t
    else
      var u := t.(maps := t.maps.(dnsIp := Some(ip)));
      if !c.put2 then u
      else SetFlag(u.(maps := u.maps.(dnsPort := Some(dnsPort % 0x1_0000))), DnsFwd, c)
  }

  ghost function FreeNext(s: State, feature: Feature, c: Calls): State {
    var flags := s.flags - {feature};
    var t := s.(flags := flags);
    if !s.attached then t
    else if flags == {} then t.(attached := false)
    else if c.putFlags then t.(maps := t.maps.(features := flags)) else t
  }

  ghost function Next(s: State, step: Step): State {
    match step
    case LoadWgProxy(proxyPort, wgPort, c) => LoadWgNext(s, proxyPort, wgPort, c)
    case LoadDnsFwd(ip, dnsPort, c) => LoadDnsNext(s, ip, dnsPort, c)
    case Free(feature, c) => FreeNext(s, feature, c)
  }

  ghost function Run(s: State, steps: seq<Step>): State
    decreases |steps|
  {
    if steps == [] then s else Run(Next(s, steps[0]), steps[1..])
  }

  ghost predicate WgWritten(m: Maps) {
    m.proxyPort.Some? && m.wgPort.Some?
  }

  ghost predicate DnsWritten(m: Maps) {
    m.dnsIp.Some? && m.dnsPort.Some?
  }

  /** Every feature in the word has its settings in the maps. */
  ghost predicate Backed(flags: set<Feature>, m: Maps) {
    && (WgProxy in flags ==> WgWritten(m))
    && (DnsFwd in flags ==> DnsWritten(m))
  }

  /** A feature the manager counts on keeps the program attached, and a feature that it counts on or that
      the kernel sees has its settings. */
  ghost predicate Inv(s: State) {
    && (s.flags != {} ==> s.attached)
    && (s.attached ==> Backed(s.flags, s.maps) && Backed(s.maps.features, s.maps))
  }

  lemma NextInv(s: State, step: Step)
    requires Inv(s)
    ensures Inv(Next(s, step))
  {}

  /** In every run, failing calls included: a non-zero flag word means the program is attached, and a
      feature bit the kernel sees means that its settings were written since the last load. */
  lemma {:induction false} RunInv(s: State, steps: seq<Step>)
    requires Inv(s)
    ensures Inv(Run(s, steps))
    decreases |steps|
  {
    if steps != [] {
      NextInv(s, steps[0]);
      RunInv(Next(s, steps[0]), steps[1..]);
    }
  }

  /** What the run lemma says about a reachable state. */
  lemma FlagsAreBacked(steps: seq<Step>)
    ensures var s := Run(Init(), steps);
            && (s.flags != {} ==> s.attached)
            && (s.attached && WgProxy in s.maps.features ==> WgWritten(s.maps))
            && (s.attached && DnsFwd in s.maps.features ==> DnsWritten(s.maps))
  {
    RunInv(Init(), steps);
  }

  // ---------------------------------------------------------------- when no call fails

  predicate Good(step: Step) {
    step.calls.AllGood()
  }

  /** The kernel sees what the manager counts on, and the program is attached exactly while it is needed. */
  ghost predicate InStep(s: State) {
    && (s.attached <==> s.flags != {})
    && (s.attached ==> s.maps.features == s.flags)
  }

  lemma NextInStep(s: State, step: Step)
    requires InStep(s) && Good(step)
    ensures InStep(Next(s, step))
  {}

  lemma {:induction false} GoodRunsStayInStep(s: State, steps: seq<Step>)
    requires InStep(s) && forall step | step in steps :: Good(step)
    ensures InStep(Run(s, steps))
    decreases |steps|
  {
    if steps != [] {
      NextInStep(s, steps[0]);
      GoodRunsStayInStep(Next(s, steps[0]), steps[1..]);
    }
  }

  /** Exactly when one operation keeps the program attached only while a feature needs it: it is not a
      load that attaches the program and then fails to write a setting, for that one does not detach again. */
  lemma AttachedWhileNeededIff(s: State, step: Step)
    requires s.attached <==> s.flags != {}
    ensures var t := Next(s, step);
            (t.attached <==> t.flags != {}) <==>
            !(!step.Free? && !s.attached && CanLoad(step.calls) && !(step.calls.put1 && step.calls.put2))
  {}

  /** A first load that attaches the program and cannot write a setting. */
  lemma LoadLeavesAttached(proxyPort: int, wgPort: int, c: Calls)
    requires CanLoad(c) && !c.put1
    ensures var s := Run(Init(), [LoadWgProxy(proxyPort, wgPort, c)]);
            s.attached && s.flags == {} && s.maps == NO_MAPS
  {
    assert [LoadWgProxy(proxyPort, wgPort, c)][1..] == [];
  }

  /** What the last operation on a feature was, if it was a load. */
  ghost function LastLoad(steps: seq<Step>, feature: Feature): (load: Option<Step>)
    ensures load.Some? ==> load.value in steps && if feature == WgProxy then load.value.LoadWgProxy? else load.value.LoadDnsFwd?
  {
    if steps == [] then None
    else
      var last := steps[|steps| - 1];
      if last.LoadWgProxy? && feature == WgProxy then Some(last)
      else if last.LoadDnsFwd? && feature == DnsFwd then Some(last)
      else if last == Free(feature, last.calls) then None
      else LastLoad(steps[..|steps| - 1], feature)
  }

  /** The settings in the maps are those of the loads. */
  ghost predicate WrittenBy(m: Maps, load: Step) {
    match load
    case LoadWgProxy(proxyPort, wgPort, _) =>
      m.proxyPort == Some(proxyPort % 0x1_0000) && m.wgPort == Some(wgPort % 0x1_0000)
    case LoadDnsFwd(ip, dnsPort, _) => m.dnsIp == Some(ip) && m.dnsPort == Some(dnsPort % 0x1_0000)
    case Free(_, _) => false
  }

  /** The state says of a feature what the operations say. */
  ghost predicate Reflects(s: State, steps: seq<Step>, feature: Feature) {
    && InStep(s)
    && (feature in s.flags <==> LastLoad(steps, feature).Some?)
    && (LastLoad(steps, feature).Some? ==> WrittenBy(s.maps, LastLoad(steps, feature).value))
  }

  lemma NextReflects(s: State, steps: seq<Step>, step: Step, feature: Feature)
    requires Reflects(s, steps, feature) && Good(step)
    ensures Reflects(Next(s, step), steps + [step], feature)
  {
    assert (steps + [step])[..|steps|] == steps;
  }

  lemma {:induction false} RunOneMore(s: State, steps: seq<Step>, step: Step)
    ensures Run(s, steps + [step]) == Next(Run(s, steps), step)
    decreases |steps|
  {
    if steps == [] {
      assert [step][1..] == [];
      assert steps + [step] == [step];
    } else {
      assert (steps + [step])[1..] == steps[1..] + [step];
      RunOneMore(Next(s, steps[0]), steps[1..], step);
    }
  }

  lemma {:induction false} RunReflects(steps: seq<Step>, feature: Feature)
    requires forall step | step in steps :: Good(step)
    ensures Reflects(Run(Init(), steps), steps, feature)
    decreases |steps|
  {
    if steps != [] {
      var init, last := steps[..|steps| - 1], steps[|steps| - 1];
      assert steps == init + [last];
      RunReflects(init, feature);
      RunOneMore(Init(), init, last);
      NextReflects(Run(Init(), init), init, last, feature);
    }
  }

  /** In every run in which no call fails: the kernel sees a feature, the program being attached, if and only if the last
      operation on that feature was a load, and then with the settings of that load. */
  lemma SeenIffLoadedLast(steps: seq<Step>, feature: Feature)
    requires forall step | step in steps :: Good(step)
    ensures var s := Run(Init(), steps);
            var load := LastLoad(steps, feature);
            && (s.attached && feature in s.maps.features <==> load.Some?)
            && (load.Some? ==> WrittenBy(s.maps, load.value))
  {
    RunReflects(steps, feature);
  }

  // ---------------------------------------------------------------- the manager

  class GeneralManager {
    var link: bool
    var featureFlags: set<Feature>
    var maps: Maps

    ghost function Abs(): State
      reads this
    {
      State(featureFlags, link, maps)
    }

    constructor ()
      ensures Abs() == Init()
    {
      link, featureFlags, maps := false, {}, NO_MAPS;
    }

    method SetFeatureFlag(feature: Feature)
      modifies this`featureFlags
      ensures featureFlags == old(featureFlags) + {feature}
    {
      featureFlags := featureFlags + {feature};
    }

    method LoadXdp(c: Calls) returns (ok: bool)
      modifies this`link, this`maps
      ensures Abs() == LoadXdpNext(old(Abs()), c)
      ensures ok == link == (old(link) || (c.memlock && c.interface && c.load && c.attach)) && featureFlags == old(featureFlags)
      ensures maps == if old(link) || !(c.memlock && c.interface && c.load) then old(maps) else NO_MAPS
    {
      if link {
        return true;
      }
      if !c.memlock || !c.interface || !c.load {
        return false;
      }
      maps := NO_MAPS;
      link := c.attach;
      return link;
    }

    method PutFeatures(c: Calls) returns (ok: bool)
      modifies this`maps
      ensures ok == c.putFlags
      ensures maps == if ok then old(maps).(features := featureFlags) else old(maps)
    {
      ok := c.putFlags;
      if ok {
        maps := maps.(features := featureFlags);
      }
    }

    method LoadWgProxy(proxyPort: int, wgPort: int, c: Calls) returns (ok: bool)
      modifies this
      ensures Abs() == LoadWgNext(old(Abs()), proxyPort, wgPort, c)
      ensures ok <==> (old(link) || (c.memlock && c.interface && c.load && c.attach)) && c.put1 && c.put2 && c.putFlags
      ensures ok ==> && link && featureFlags == old(featureFlags) + {WgProxy} && maps.features == featureFlags
                     && maps.proxyPort == Some(proxyPort % 0x1_0000) && maps.wgPort == Some(wgPort % 0x1_0000)
      ensures ok && old(link) ==> maps.dnsIp == old(maps).dnsIp && maps.dnsPort == old(maps).dnsPort
    {
      ok := LoadXdp(c);
      if !ok || !c.put1 {
        return false;
      }
      maps := maps.(proxyPort := Some(proxyPort % 0x1_0000));
      if !c.put2 {
        return false;
      }
      maps := maps.(wgPort := Some(wgPort % 0x1_0000));
      SetFeatureFlag(WgProxy);
      ok := PutFeatures(c);
    }

    method LoadDnsFwd(ip: U32, dnsPort: int, c: Calls) returns (ok: bool)
      modifies this
      ensures Abs() == LoadDnsNext(old(Abs()), ip, dnsPort, c)
      ensures ok <==> (old(link) || (c.memlock && c.interface && c.load && c.attach)) && c.put1 && c.put2 && c.putFlags
      ensures ok ==> && link && featureFlags == old(featureFlags) + {DnsFwd} && maps.features == featureFlags
                     && maps.dnsIp == Some(ip) && maps.dnsPort == Some(dnsPort % 0x1_0000)
      ensures ok && old(link) ==> maps.proxyPort == old(maps).proxyPort && maps.wgPort == old(maps).wgPort
    {
      ok := LoadXdp(c);
      if !ok || !c.put1 {
        return false;
      }
      maps := maps.(dnsIp := Some(ip));
      if !c.put2 {
        return false;
      }
      maps := maps.(dnsPort := Some(dnsPort % 0x1_0000));
      SetFeatureFlag(DnsFwd);
      ok := PutFeatures(c);
    }

    /** The link is given up even if closing it fails. */
    method Close(c: Calls) returns (ok: bool)
      modifies this`link
      ensures !link && ok == c.closeLink
    {
      link := false;
      return c.closeLink;
    }

    method UnsetFeatureFlag(feature: Feature, c: Calls) returns (ok: bool)
      modifies this
      ensures Abs() == FreeNext(old(Abs()), feature, c)
      ensures feature !in featureFlags && forall f | f != feature :: f in featureFlags <==> f in old(featureFlags)
      ensures link == (old(link) && featureFlags != {})
      ensures maps == if link && c.putFlags then old(maps).(features := featureFlags) else old(maps)
      ensures ok <==> !old(link) || (if featureFlags == {} then c.closeLink else c.putFlags)
    {
      featureFlags := featureFlags - {feature};
      if !link {
        return true;
      }
      if featureFlags == {} {
        ok := Close(c);
        return;
      }
      ok := PutFeatures(c);
    }
  }
}
