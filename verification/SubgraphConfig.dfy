/** How the numbers in the configuration of `apoc.path.subgraphNodes` are read. */
module SubgraphConfig {
  import opened Numerals
  import opened Subgraph
  import opened Wrappers
  import SubgraphExact
  import Text

  const MAX_TRAVERSAL_LEVEL: nat := 64
  const U64_MAX: nat := 0xFFFF_FFFF_FFFF_FFFF

  /** The value of one entry of the configuration; `Other` is neither a whole number nor a string. */
  datatype Setting = Missing | Number(i: int) | Quoted(text: string) | Other

  function NonnegativeUsize(v: Setting): (r: Option<nat>)
    ensures r.Some? ==> r.value <= U64_MAX
  {
    match v
    case Number(i) => if 0 <= i <= U64_MAX then Some(i) else None
    case Quoted(text) => Text.ParseNat(text, U64_MAX)
    case _ => None
  }

  function PositiveUsize(v: Setting): (r: Option<nat>)
    ensures r.Some? ==> 1 <= r.value <= U64_MAX
  {
    var n := NonnegativeUsize(v);
    if n == Some(0) then None else n
  }

  function AtMost(n: nat, cap: nat): nat {
    if n <= cap then n else cap
  }

  /** `filters` holds what the relationship and label filters say. */
  function TraversalConfig(minLevel: Setting, maxLevel: Setting, limit: Setting, filters: Config): Config {
    var low, high := NonnegativeUsize(minLevel), PositiveUsize(maxLevel);
    filters.(minLevel := AtMost(if low.Some? then low.value else 0, MAX_TRAVERSAL_LEVEL),
             maxLevel := AtMost(if high.Some? then high.value else 3, MAX_TRAVERSAL_LEVEL),
             limit := PositiveUsize(limit))
  }

  /** The setting is the number `n`, as a number or as its figures in quotes. */
  predicate Says(v: Setting, n: nat) {
    && n <= 0xFFFF_FFFF_FFFF_FFFF
    && match v
       case Number(i) => i == n
       case Quoted(text) => (text != "" && Means(text, n)) || (|text| > 1 && text[0] == '+' && Means(text[1..], n))
       case _ => false
  }

  ghost predicate SaysNothing(v: Setting) {
    forall n :: !Says(v, n)
  }

  lemma SaidNumber(v: Setting, n: nat)
    ensures Says(v, n) <==> NonnegativeUsize(v) == Some(n)
  {
    hide Means;
    if v.Quoted? {
      ParseNatIs(v.text, U64_MAX, n);
    }
  }

  lemma SaidNothing(v: Setting)
    requires SaysNothing(v)
    ensures NonnegativeUsize(v) == None
  {
    hide Says, NonnegativeUsize;
    if NonnegativeUsize(v).Some? {
      SaidNumber(v, NonnegativeUsize(v).value);
    }
  }

  lemma Said(v: Setting, n: nat)
    requires Says(v, n) || (SaysNothing(v) && n == 0)
    ensures NonnegativeUsize(v) == if Says(v, n) then Some(n) else None
  {
    hide SaysNothing, NonnegativeUsize;
    if Says(v, n) {
      SaidNumber(v, n);
    } else {
      SaidNothing(v);
    }
  }

  /** Levels are read up to 64; the last level is 3 if none or 0 is asked for. */
  lemma RequestedLevels(minLevel: Setting, maxLevel: Setting, limit: Setting, filters: Config, low: nat, high: nat)
    requires Says(minLevel, low) || (SaysNothing(minLevel) && low == 0)
    requires Says(maxLevel, high) || (SaysNothing(maxLevel) && high == 0)
    ensures var cfg := TraversalConfig(minLevel, maxLevel, limit, filters);
      && cfg.minLevel == (if low <= 64 then low else 64)
      && cfg.maxLevel == (if high == 0 then 3 else if high <= 64 then high else 64)
      && cfg == filters.(minLevel := cfg.minLevel, maxLevel := cfg.maxLevel, limit := cfg.limit)
  {
    hide Says, SaysNothing;
    Said(minLevel, low);
    Said(maxLevel, high);
  }

  /** A request that asks for `n` rows, `n` at least 1, gets the first `n` rows of the same request without a limit;
      one that asks for 0 rows, or for no number of rows, gets them all. */
  lemma RequestedLimit(g: Graph, minLevel: Setting, maxLevel: Setting, limit: Setting, n: nat, filters: Config, start: string,
                       rounds: Option<nat>)
    requires Says(limit, n) || (SaysNothing(limit) && n == 0)
    requires Loop(g, TraversalConfig(minLevel, maxLevel, Missing, filters), [Pending(start, 0)], {start}, [], rounds).Ok?
    ensures var cfg := TraversalConfig(minLevel, maxLevel, Missing, filters);
      var all := Loop(g, cfg, [Pending(start, 0)], {start}, [], rounds).value;
      Loop(g, TraversalConfig(minLevel, maxLevel, limit, filters), [Pending(start, 0)], {start}, [], rounds)
      == Ok(if n == 0 || |all| <= n then all else all[..n])
  {
    hide Loop, Says, SaysNothing;
    var cfg := TraversalConfig(minLevel, maxLevel, Missing, filters);
    assert cfg.limit == None;
    Said(limit, n);
    if n > 0 {
      assert TraversalConfig(minLevel, maxLevel, limit, filters) == cfg.(limit := Some(n));
      SubgraphExact.LimitIsPrefix(g, cfg, n, start, rounds);
    }
  }
}
