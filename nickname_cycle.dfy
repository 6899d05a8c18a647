/** The rotating nicknames of the dashboard header
    (`components/NicknameCycle.tsx`): two lists of four names, each shown in
    turn by a ticker that advances every two seconds. The couple's two names
    (`partnerNames`) are a parameter; the interval is an explicit `Tick` call. */
module NicknameCycle {
  import opened Wrappers
  import opened Cyclic
  import opened SpaceContext

  const Defaults1: seq<string> := ["My Love", "Sweetheart", "Darling"]
  const Defaults2: seq<string> := ["My Love", "Sweetheart", "Honey"]

  /** `NicknameCycle1`'s list: the second name in the cookie space, the
      first otherwise, then its three defaults. */
  function Nicknames1(space: Option<Space>, partnerNames: (string, string)): (r: seq<string>)
    ensures |r| == 4 && r[1..] == Defaults1
    ensures r[0] == if space == Some(Cookie) then partnerNames.1 else partnerNames.0
  {
    [if space == Some(Cookie) then partnerNames.1 else partnerNames.0] + Defaults1
  }

  /** `NicknameCycle2`'s list: the first name in the cookie space, the
      second otherwise, then its three defaults. */
  function Nicknames2(space: Option<Space>, partnerNames: (string, string)): (r: seq<string>)
    ensures |r| == 4 && r[1..] == Defaults2
    ensures r[0] == if space == Some(Cookie) then partnerNames.0 else partnerNames.1
  {
    [if space == Some(Cookie) then partnerNames.0 else partnerNames.1] + Defaults2
  }

  /** With two different names, the two tickers start on different names,
      in every space. */
  lemma CyclesStartApart(space: Option<Space>, partnerNames: (string, string))
    requires partnerNames.0 != partnerNames.1
    ensures Nicknames1(space, partnerNames)[0] != Nicknames2(space, partnerNames)[0]
  {
  }

  /** One ticker: the list it shows and the position of the name on display. */
  class Ticker {
    const nicknames: seq<string>
    var index: nat

    predicate Valid()
      reads this
    {
      0 < |nicknames| && index < |nicknames|
    }

    constructor (nicknames: seq<string>)
      requires |nicknames| > 0
      ensures this.nicknames == nicknames && index == 0 && Valid()
    {
      this.nicknames := nicknames;
      index := 0;
    }

    /** The name on display. */
    function Shown(): string
      requires Valid()
      reads this
    {
      nicknames[index]
    }

    /** The interval callback: `(prev + 1) % nicknames.length`. */
    method Tick()
      requires Valid()
      modifies this
      ensures Valid()
      ensures index == Next(old(index), |nicknames|)
    {
      index := (index + 1) % |nicknames|;
    }
  }

  /** After as many ticks as there are names, the ticker shows its first
      name again. */
  lemma TickerComesBack(index: nat, nicknames: seq<string>)
    requires index < |nicknames|
    ensures Steps(index, |nicknames|, |nicknames|) == index
  {
    CycleReturns(index, |nicknames|);
  }
}
