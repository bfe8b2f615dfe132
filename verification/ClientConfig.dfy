/**
 Applying command-line input to the stored client configuration (client/internal/config.go, `apply`), with
 `SliceDiff` (util/common.go).
 */
module ClientConfig {
  import opened Wrappers

  const DEFAULT_WG_PORT := 51822
  const WG_INTERFACE_DEFAULT := "wt0"
  const DEFAULT_BLACK_LIST := [
    WG_INTERFACE_DEFAULT, "wt", "utun", "tun0", "zt", "ZeroTier", "wg", "ts",
    "Tailscale", "tailscale", "docker", "veth", "br-", "lo"
  ]

  datatype Input = Input(port: Option<int>, name: Option<string>, extra: seq<string>)

  datatype Settings = Settings(privateKey: string, wgPort: int, wgIface: string, blackList: seq<string>)

  /** The elements of `x` that are not in `y`, in order, repetitions included. */
  function Difference(x: seq<string>, y: seq<string>): (r: seq<string>)
    ensures forall v :: v in r <==> v in x && v !in y
  {
    if x == [] then []
    else
      var last := x[|x| - 1];
      Difference(x[..|x| - 1], y) + if last in y then [] else [last]
  }

  method SliceDiff(x: seq<string>, y: seq<string>) returns (diff: seq<string>)
    ensures diff == Difference(x, y)
    ensures forall v :: multiset(diff)[v] == if v in y then 0 else multiset(x)[v]
  {
    var mapY: set<string> := {};
    for i := 0 to |y|
      invariant forall v :: v in mapY <==> v in y[..i]
    {
      mapY := mapY + {y[i]};
    }
    diff := [];
    for i := 0 to |x|
      invariant diff == Difference(x[..i], y)
    {
      assert x[..i + 1][..i] == x[..i];
      if x[i] !in mapY {
        diff := diff + [x[i]];
      }
    }
    assert x[..|x|] == x;
    DifferenceCounts(x, y);
  }

  lemma {:induction false} DifferenceCounts(x: seq<string>, y: seq<string>)
    ensures forall v :: multiset(Difference(x, y))[v] == if v in y then 0 else multiset(x)[v]
  {
    if x != [] {
      var init, last := x[..|x| - 1], x[|x| - 1];
      assert x == init + [last];
      DifferenceCounts(init, y);
    }
  }

  /** The difference is determined element by element. */
  lemma {:induction false} DifferenceParts(a: seq<string>, b: seq<string>, y: seq<string>)
    ensures Difference(a + b, y) == Difference(a, y) + Difference(b, y)
  {
    if b == [] {
      assert a + b == a;
    } else {
      var init, last := b[..|b| - 1], b[|b| - 1];
      assert a + b == (a + init) + [last] && b == init + [last];
      DifferenceNext(a + init, last, y);
      DifferenceNext(init, last, y);
      DifferenceParts(a, init, y);
    }
  }

  lemma DifferenceNext(x: seq<string>, v: string, y: seq<string>)
    ensures Difference(x + [v], y) == Difference(x, y) + if v in y then [] else [v]
  {
    assert (x + [v])[..|x|] == x;
  }

  lemma DifferenceOne(v: string, y: seq<string>)
    ensures Difference([v], y) == if v in y then [] else [v]
  {
    assert [v][..0] == [];
  }

  lemma DefaultsSpelled()
    ensures WG_INTERFACE_DEFAULT == "wt0" && DEFAULT_WG_PORT == 51822
    ensures DEFAULT_BLACK_LIST[0] == "wt0" && DEFAULT_BLACK_LIST[1..] ==
            ["wt", "utun", "tun0", "zt", "ZeroTier", "wg", "ts", "Tailscale", "tailscale", "docker", "veth", "br-", "lo"]
  {}

  function Chosen<T(==)>(given: Option<T>, current: T, zero: T, standard: T): T {
    if given.Some? && given.value != current then given.value
    else if current == zero then standard
    else current
  }

  function BaseList(blackList: seq<string>): (base: seq<string>)
    ensures blackList == [] ==> base == DEFAULT_BLACK_LIST
    ensures blackList != [] ==> base == blackList
  {
    if blackList == [] then DEFAULT_BLACK_LIST else blackList
  }

  /** The configuration after `apply`, if a key generated in the meantime would be `key`. */
  function Applied(c: Settings, input: Input, key: string): Settings {
    Settings(if c.privateKey == "" then key else c.privateKey,
             Chosen(input.port, c.wgPort, 0, DEFAULT_WG_PORT),
             Chosen(input.name, c.wgIface, "", WG_INTERFACE_DEFAULT),
             BaseList(c.blackList) + Difference(input.extra, BaseList(c.blackList)))
  }

  class Config {
    var privateKey: string
    var wgPort: int
    var wgIface: string
    var blackList: seq<string>

    function Value(): Settings
      reads this
    {
      Settings(privateKey, wgPort, wgIface, blackList)
    }

    constructor (c: Settings)
      ensures Value() == c
    {
      privateKey, wgPort, wgIface, blackList := c.privateKey, c.wgPort, c.wgIface, c.blackList;
    }

    /** `updated` tells the truth: the file is rewritten exactly when the configuration has changed. */
    method Apply(input: Input, key: string) returns (updated: bool)
      requires key != ""
      modifies this
      ensures Value() == Applied(old(Value()), input, key)
      ensures privateKey == if old(privateKey) == "" then key else old(privateKey)
      ensures wgPort == if input.port.Some? && input.port.value != old(wgPort) then input.port.value
                        else if old(wgPort) == 0 then 51822 else old(wgPort)
      ensures wgIface == if input.name.Some? && input.name.value != old(wgIface) then input.name.value
                         else if old(wgIface) == "" then WG_INTERFACE_DEFAULT else old(wgIface)
      ensures blackList == BaseList(old(blackList)) + Difference(input.extra, BaseList(old(blackList)))
      ensures updated <==> Value() != old(Value())
    {
      updated := false;
      if privateKey == "" {
        privateKey := key;
        updated := true;
      }

      if input.port.Some? && input.port.value != wgPort {
        wgPort := input.port.value;
        updated := true;
      } else if wgPort == 0 {
        wgPort := DEFAULT_WG_PORT;
        updated := true;
      }

      if input.name.Some? && input.name.value != wgIface {
        wgIface := input.name.value;
        updated := true;
      } else if wgIface == "" {
        wgIface := WG_INTERFACE_DEFAULT;
        updated := true;
      }

      var extended := ExtendBlackList(input.extra);
      updated := updated || extended;
    }

    /** The part of `apply` on the interface blacklist. */
    method ExtendBlackList(extra: seq<string>) returns (updated: bool)
      modifies this`blackList
      ensures blackList == BaseList(old(blackList)) + Difference(extra, BaseList(old(blackList)))
      ensures updated <==> blackList != old(blackList)
    {
      updated := |blackList| == 0;
      if updated {
        assert blackList + DEFAULT_BLACK_LIST == DEFAULT_BLACK_LIST;
        blackList := blackList + DEFAULT_BLACK_LIST;
      }
      var added := AddMissing(extra);
      updated := updated || added;
    }

    method AddMissing(extra: seq<string>) returns (updated: bool)
      modifies this`blackList
      ensures blackList == old(blackList) + Difference(extra, old(blackList))
      ensures updated <==> Difference(extra, old(blackList)) != []
    {
      if |extra| > 0 {
        var diff := SliceDiff(extra, blackList);
        AppendAll(diff);
        return |diff| > 0;
      }
      DifferenceEmpty(extra, blackList);
      return false;
    }

    method AppendAll(interfaces: seq<string>)
      modifies this`blackList
      ensures blackList == old(blackList) + interfaces
    {
      for i := 0 to |interfaces|
        invariant blackList == old(blackList) + interfaces[..i]
      {
        blackList := blackList + [interfaces[i]];
      }
    }
  }

  lemma DifferenceEmpty(x: seq<string>, y: seq<string>)
    requires |x| == 0
    ensures Difference(x, y) == [] && y + Difference(x, y) == y
  {}

  lemma {:induction false} NothingNew(x: seq<string>, y: seq<string>)
    requires forall v | v in x :: v in y
    ensures Difference(x, y) == []
  {
    if x != [] {
      NothingNew(x[..|x| - 1], y);
    }
  }

  /** Every interface asked for is in the blacklist afterwards, and nothing else is added. */
  lemma BlackListCovers(c: Settings, input: Input, key: string)
    ensures var after := Applied(c, input, key).blackList;
            forall v :: v in after <==> v in BaseList(c.blackList) || v in input.extra
  {}

  /** A configuration that `apply` has already been through. */
  predicate Settled(c: Settings, input: Input) {
    c.privateKey != "" && c.blackList != [] && forall v | v in input.extra :: v in c.blackList
  }

  lemma AppliedSettles(c: Settings, input: Input, key: string)
    requires key != ""
    ensures Settled(Applied(c, input, key), input)
  {
    BlackListCovers(c, input, key);
  }

  lemma AppliedAgain(c: Settings, input: Input, key: string)
    requires Settled(c, input)
    ensures Applied(c, input, key) == c.(wgPort := Chosen(input.port, c.wgPort, 0, DEFAULT_WG_PORT),
                                         wgIface := Chosen(input.name, c.wgIface, "", WG_INTERFACE_DEFAULT))
  {
    NothingNew(input.extra, c.blackList);
  }

  lemma ChosenTwice<T>(given: Option<T>, current: T, zero: T, standard: T)
    requires standard != zero
    ensures var once := Chosen(given, current, zero, standard);
            var twice := Chosen(given, once, zero, standard);
            (twice == once <==> given != Some(zero)) && Chosen(given, twice, zero, standard) == once
  {}

  /** Applying the same input again changes nothing exactly when no zero value was given explicitly. */
  lemma ApplyTwiceIff(c: Settings, input: Input, key: string, key': string)
    requires key != ""
    ensures var once := Applied(c, input, key);
            Applied(once, input, key') == once <==> input.port != Some(0) && input.name != Some("")
  {
    AppliedSettles(c, input, key);
    AppliedAgain(Applied(c, input, key), input, key');
    ChosenTwice(input.port, c.wgPort, 0, DEFAULT_WG_PORT);
    ChosenTwice(input.name, c.wgIface, "", WG_INTERFACE_DEFAULT);
  }

  /** An explicit zero makes a value alternate between zero and the default: the third application restores the
      result of the first. */
  lemma ThirdIsFirst(c: Settings, input: Input, key: string, key': string)
    requires key != ""
    ensures var once := Applied(c, input, key);
            Applied(Applied(once, input, key'), input, key') == once
  {
    var once := Applied(c, input, key);
    AppliedSettles(c, input, key);
    AppliedAgain(once, input, key');
    AppliedAgain(Applied(once, input, key'), input, key');
    ChosenTwice(input.port, c.wgPort, 0, DEFAULT_WG_PORT);
    ChosenTwice(input.name, c.wgIface, "", WG_INTERFACE_DEFAULT);
  }
}
