/**
  Dashboard queries: what a cache key says about the query it was made from, and
  the handler that answers from the cache.

  A predicate compared with `true` is handled by the verifier as one fact, not as its
  conjuncts.
 */
module Dashboard {
  import opened Options
  import opened SegmentName
  import opened TtlCache

  const DEFAULT_RANGE_SECS: nat := 300
  const MIN_RANGE_SECS: nat := 60
  const MAX_RANGE_SECS: nat := 3600
  const DEFAULT_LIMIT: nat := 100
  const MAX_Q_LEN: nat := 64

  datatype Sort = Cpu | MemoryLast | MemoryPeak | Execs | LastSeen
  datatype Order = Asc | Desc

  datatype Params = Params(
    rangeSecs: Option<nat>,
    sort: Option<string>,
    order: Option<string>,
    q: Option<string>,
    node: Option<string>,
    unattributed: Option<bool>,
    limit: Option<nat>)

  datatype Query = Query(
    rangeSecs: nat,
    sort: Sort,
    order: Order,
    q: Option<string>,
    node: Option<string>,
    unattributed: bool,
    limit: nat)

  function ParseSort(s: Option<string>): Sort {
    var name := if s.Some? then s.value else "cpu";
    if name == "mem" || name == "memory" then MemoryLast
    else if name == "mem_peak" || name == "memory_peak" then MemoryPeak
    else if name == "execs" || name == "exec_count" then Execs
    else if name == "last_seen" then LastSeen
    else Cpu
  }

  function SortName(s: Sort): string {
    match s
    case Cpu => "cpu"
    case MemoryLast => "mem"
    case MemoryPeak => "mem_peak"
    case Execs => "execs"
    case LastSeen => "last_seen"
  }

  function ParseOrder(s: Option<string>): Order {
    if s == Some("asc") then Asc else Desc
  }

  function OrderName(o: Order): string {
    match o
    case Asc => "asc"
    case Desc => "desc"
  }

  function BoolName(b: bool): string { if b then "true" else "false" }

  function Clamp(n: nat, low: nat, high: nat): nat {
    if n < low then low else if n > high then high else n
  }

  /** Absent texts are None, never empty, and all are short. */
  predicate Normal(x: Query) {
    && MIN_RANGE_SECS <= x.rangeSecs <= MAX_RANGE_SECS
    && (x.q.Some? ==> 1 <= |x.q.value| <= MAX_Q_LEN)
    && (x.node.Some? ==> 1 <= |x.node.value| <= MAX_Q_LEN)
  }

  /** A text after cleaning; None when nothing is left. */
  function NonEmpty(s: string): Option<string> { if s == "" then None else Some(s) }

  /**
    The bounded form of a request; `trim` and `lower` stand for the string library's
    trimming and lower-casing. A long search is cut, a long node is ignored.
   */
  function Normalize(p: Params, maxLimit: nat, trim: string -> string, lower: string -> string): (x: Query)
    requires maxLimit >= 1
    ensures Normal(x) && 1 <= x.limit <= maxLimit
  {
    var q := if p.q.None? then None else NonEmpty(lower(trim(p.q.value)));
    var node := if p.node.None? then None else NonEmpty(trim(p.node.value));
    Query(
      Clamp(if p.rangeSecs.Some? then p.rangeSecs.value else DEFAULT_RANGE_SECS, MIN_RANGE_SECS, MAX_RANGE_SECS),
      ParseSort(p.sort),
      ParseOrder(p.order),
      if q.Some? && |q.value| > MAX_Q_LEN then Some(q.value[..MAX_Q_LEN]) else q,
      if node.Some? && |node.value| > MAX_Q_LEN then None else node,
      p.unattributed.Some? && p.unattributed.value,
      Clamp(if p.limit.Some? then p.limit.value else DEFAULT_LIMIT, 1, maxLimit))
  }

  /** What is left of a text, if anything. */
  predicate Blank(s: Option<string>, clean: string -> string) {
    s.None? || clean(s.value) == ""
  }

  /** The numbers a request gets: what it asked for, moved into the bounds, or the default. */
  lemma NumbersMean(p: Params, maxLimit: nat, trim: string -> string, lower: string -> string)
    requires maxLimit >= 1
    ensures var x := Normalize(p, maxLimit, trim, lower);
            && (p.rangeSecs == None ==> x.rangeSecs == 300)
            && (p.rangeSecs.Some? && p.rangeSecs.value <= 60 ==> x.rangeSecs == 60)
            && (p.rangeSecs.Some? && p.rangeSecs.value >= 3600 ==> x.rangeSecs == 3600)
            && (p.rangeSecs.Some? && 60 < p.rangeSecs.value < 3600 ==> x.rangeSecs == p.rangeSecs.value)
            && (p.limit == None ==> x.limit == if 100 <= maxLimit then 100 else maxLimit)
            && (p.limit == Some(0) ==> x.limit == 1)
            && (p.limit.Some? && p.limit.value >= maxLimit ==> x.limit == maxLimit)
            && (p.limit.Some? && 1 <= p.limit.value < maxLimit ==> x.limit == p.limit.value)
  {
  }

  /** The names that choose a column and a direction; any other name, or none, means CPU and descending. */
  lemma NamesMean(p: Params, maxLimit: nat, trim: string -> string, lower: string -> string)
    requires maxLimit >= 1
    ensures var x := Normalize(p, maxLimit, trim, lower);
            && (x.sort == MemoryLast <==> p.sort in {Some("mem"), Some("memory")})
            && (x.sort == MemoryPeak <==> p.sort in {Some("mem_peak"), Some("memory_peak")})
            && (x.sort == Execs <==> p.sort in {Some("execs"), Some("exec_count")})
            && (x.sort == LastSeen <==> p.sort == Some("last_seen"))
            && (x.order == Asc <==> p.order == Some("asc"))
            && (x.unattributed <==> p.unattributed == Some(true))
  {
    assert ParseSort(None) == ParseSort(Some("cpu")) == Cpu;
    assert |"mem"| == 3 && |"memory"| == 6 && |"mem_peak"| == 8 && |"memory_peak"| == 11;
    assert |"execs"| == 5 && |"exec_count"| == 10 && |"last_seen"| == 9;
  }

  /** A long search is cut to 64 characters, a long node is ignored, and blank texts are absent. */
  lemma TextsMean(p: Params, maxLimit: nat, trim: string -> string, lower: string -> string)
    requires maxLimit >= 1
    ensures var x := Normalize(p, maxLimit, trim, lower);
            && (x.q.None? <==> Blank(p.q, s => lower(trim(s))))
            && (x.q.Some? ==> x.q.value <= lower(trim(p.q.value)))
            && (x.q.Some? ==> |x.q.value| == 64 || x.q.value == lower(trim(p.q.value)))
            && (x.node.None? <==> Blank(p.node, trim) || |trim(p.node.value)| > 64)
            && (x.node.Some? ==> x.node.value == trim(p.node.value))
  {
  }

  /** The views that are pinned: no text to search for, no node that is used, and attributed rows included. */
  lemma HotViewIff(p: Params, maxLimit: nat, trim: string -> string, lower: string -> string)
    requires maxLimit >= 1
    ensures IsHotView(Normalize(p, maxLimit, trim, lower)) <==>
            && Blank(p.q, s => lower(trim(s)))
            && (Blank(p.node, trim) || |trim(p.node.value)| > 64)
            && p.unattributed != Some(true)
  {
  }

  /** The parameters that ask for exactly this query. */
  function Asking(x: Query): Params {
    Params(Some(x.rangeSecs), Some(SortName(x.sort)), Some(OrderName(x.order)), x.q, x.node,
           Some(x.unattributed), Some(x.limit))
  }

  /** Normalization reaches every normal query whose texts are clean already, and leaves it as it is. */
  lemma NormalizeRoundTrip(x: Query, maxLimit: nat, trim: string -> string, lower: string -> string)
    requires Normal(x) && 1 <= x.limit <= maxLimit
    requires x.q.Some? ==> lower(trim(x.q.value)) == x.q.value
    requires x.node.Some? ==> trim(x.node.value) == x.node.value
    ensures Normalize(Asking(x), maxLimit, trim, lower) == x
  {
    assert ParseSort(Some(SortName(x.sort))) == x.sort by {
      match x.sort
      case Cpu => assert ParseSort(Some("cpu")) == Cpu;
      case MemoryLast => assert ParseSort(Some("mem")) == MemoryLast;
      case MemoryPeak => assert ParseSort(Some("mem_peak")) == MemoryPeak;
      case Execs => assert ParseSort(Some("execs")) == Execs;
      case LastSeen => assert ParseSort(Some("last_seen")) == LastSeen;
    }
    assert ParseOrder(Some(OrderName(x.order))) == x.order by {
      assert "desc" != "asc";
    }
  }

  function Decimal(n: nat): (s: string)
    ensures s != ""
  {
    if n < 10 then [DigitChar(n)] else Decimal(n / 10) + [DigitChar(n % 10)]
  }

  function Text(s: Option<string>): string { if s.Some? then s.value else "" }

  // The key "r=..&s=..&o=..&u=..&l=..&n=..&q=..", built from its last field to its first.
  function NodeAndSearch(x: Query): string { Text(x.node) + "&q=" + Text(x.q) }
  function FromLimit(x: Query): string { "l=" + Decimal(x.limit) + "&" + ("n=" + NodeAndSearch(x)) }
  function FromUnattributed(x: Query): string { "u=" + BoolName(x.unattributed) + "&" + FromLimit(x) }
  function FromOrder(x: Query): string { "o=" + OrderName(x.order) + "&" + FromUnattributed(x) }
  function FromSort(x: Query): string { "s=" + SortName(x.sort) + "&" + FromOrder(x) }
  function CacheKey(x: Query): string { "r=" + Decimal(x.rangeSecs) + "&" + FromSort(x) }

  predicate IsHotView(x: Query) {
    x.q.None? && x.node.None? && !x.unattributed
  }

  // ---- what a key determines ----------------------------------------------

  lemma {:induction false} ValueOfDecimal(n: nat)
    ensures AllDigits(Decimal(n)) && Value(Decimal(n)) == n
  {
    ValueOfDigit(n % 10);
    if n < 10 {
      assert Decimal(n) == "" + [DigitChar(n)];
      ValueSnoc("", DigitChar(n));
    } else {
      ValueOfDecimal(n / 10);
      ValueSnoc(Decimal(n / 10), DigitChar(n % 10));
    }
  }

  ghost predicate NoAmp(s: string) { '&' !in s }

  /** Text up to the first ampersand is determined by the whole. */
  lemma SplitAtAmp(a: string, x: string, b: string, y: string)
    requires NoAmp(a) && NoAmp(b) && a + "&" + x == b + "&" + y
    ensures a == b && x == y
  {
    var whole := a + "&" + x;
    assert whole[|a|] == '&' && whole[|b|] == '&';
    assert a == whole[..|a|] && b == whole[..|b|];
    assert x == whole[|a| + 1..] && y == whole[|b| + 1..];
  }

  /** Everything but the two free texts. */
  ghost predicate SameBounds(x: Query, y: Query) {
    && x.rangeSecs == y.rangeSecs && x.sort == y.sort && x.order == y.order
    && x.unattributed == y.unattributed && x.limit == y.limit
  }

  lemma {:induction false} DecimalsDiffer(prefix: string, n: nat, m: nat)
    requires NoAmp(prefix)
    ensures NoAmp(prefix + Decimal(n))
    ensures prefix + Decimal(n) == prefix + Decimal(m) ==> n == m
  {
    ValueOfDecimal(n);
    ValueOfDecimal(m);
    if prefix + Decimal(n) == prefix + Decimal(m) {
      assert Decimal(n) == (prefix + Decimal(n))[|prefix|..];
      assert Decimal(m) == (prefix + Decimal(m))[|prefix|..];
    }
  }

  lemma SameRest(prefix: string, a: string, b: string)
    requires prefix + a == prefix + b
    ensures a == b
  {
    assert a == (prefix + a)[|prefix|..] && b == (prefix + b)[|prefix|..];
  }

  lemma SortNamesDiffer(x: Sort, y: Sort)
    ensures NoAmp("s=" + SortName(x))
    ensures "s=" + SortName(x) == "s=" + SortName(y) ==> x == y
  {
    if "s=" + SortName(x) == "s=" + SortName(y) {
      SameRest("s=", SortName(x), SortName(y));
    }
  }

  lemma OrderNamesDiffer(x: Order, y: Order)
    ensures NoAmp("o=" + OrderName(x))
    ensures "o=" + OrderName(x) == "o=" + OrderName(y) ==> x == y
  {
    if "o=" + OrderName(x) == "o=" + OrderName(y) {
      SameRest("o=", OrderName(x), OrderName(y));
    }
  }

  lemma BoolNamesDiffer(x: bool, y: bool)
    ensures NoAmp("u=" + BoolName(x))
    ensures "u=" + BoolName(x) == "u=" + BoolName(y) ==> x == y
  {
    if "u=" + BoolName(x) == "u=" + BoolName(y) {
      SameRest("u=", BoolName(x), BoolName(y));
    }
  }

  /** Equal keys are exactly equal bounds and equal tails. */
  lemma SameKeyIff(x: Query, y: Query)
    ensures CacheKey(x) == CacheKey(y) <==> SameBounds(x, y) && NodeAndSearch(x) == NodeAndSearch(y)
  {
    if CacheKey(x) == CacheKey(y) {
      SortNamesDiffer(x.sort, y.sort);
      SortNamesDiffer(y.sort, x.sort);
      OrderNamesDiffer(x.order, y.order);
      OrderNamesDiffer(y.order, x.order);
      BoolNamesDiffer(x.unattributed, y.unattributed);
      BoolNamesDiffer(y.unattributed, x.unattributed);
      DecimalsDiffer("r=", x.rangeSecs, y.rangeSecs);
      DecimalsDiffer("r=", y.rangeSecs, x.rangeSecs);
      DecimalsDiffer("l=", x.limit, y.limit);
      DecimalsDiffer("l=", y.limit, x.limit);
      SplitAtAmp("r=" + Decimal(x.rangeSecs), FromSort(x), "r=" + Decimal(y.rangeSecs), FromSort(y));
      SplitAtAmp("s=" + SortName(x.sort), FromOrder(x), "s=" + SortName(y.sort), FromOrder(y));
      SplitAtAmp("o=" + OrderName(x.order), FromUnattributed(x), "o=" + OrderName(y.order), FromUnattributed(y));
      SplitAtAmp("u=" + BoolName(x.unattributed), FromLimit(x), "u=" + BoolName(y.unattributed), FromLimit(y));
      SplitAtAmp("l=" + Decimal(x.limit), "n=" + NodeAndSearch(x), "l=" + Decimal(y.limit), "n=" + NodeAndSearch(y));
      assert NodeAndSearch(x) == ("n=" + NodeAndSearch(x))[2..] && NodeAndSearch(y) == ("n=" + NodeAndSearch(y))[2..];
    }
  }

  predicate SeparatorAt(s: string, i: nat) { i + 3 <= |s| && s[i..i + 3] == "&q=" }

  ghost predicate HasSeparator(s: string) { exists i: nat :: SeparatorAt(s, i) }

  /** When the same text splits twice at a separator, the longer head holds one. */
  lemma SplitTwice(a: string, x: string, b: string, y: string)
    requires a + "&q=" + x == b + "&q=" + y && |a| < |b|
    ensures |a| + 3 <= |b| && b == a + "&q=" + b[|a| + 3..] && x == b[|a| + 3..] + "&q=" + y && HasSeparator(b)
  {
    var whole := a + "&q=" + x;
    assert whole[|a|] == '&' && whole[|a| + 1] == 'q' && whole[|a| + 2] == '=';
    assert whole[|b|] == '&';
    assert |a| + 3 <= |b|;
    assert a == whole[..|a|] && b == whole[..|b|];
    assert b[|a|..|a| + 3] == whole[|a|..|a| + 3] == "&q=";
    assert SeparatorAt(b, |a|);
    assert b == b[..|a|] + b[|a|..|a| + 3] + b[|a| + 3..];
    assert x == whole[|a| + 3..];
    assert whole == b + "&q=" + y;
  }

  /** `y` is `x` with a piece of the search moved behind the node. */
  ghost predicate Shifted(x: Query, y: Query) {
    exists t: string :: Text(y.node) == Text(x.node) + "&q=" + t && Text(x.q) == t + "&q=" + Text(y.q)
  }

  lemma SameText(s: Option<string>, t: Option<string>)
    requires (s.Some? ==> s.value != "") && (t.Some? ==> t.value != "") && Text(s) == Text(t)
    ensures s == t
  {
  }

  /** Two different queries share a key exactly when they differ by where a literal "&q=" is read. */
  lemma KeyCollidesIff(x: Query, y: Query)
    requires Normal(x) && Normal(y)
    ensures CacheKey(x) == CacheKey(y) <==> x == y || (SameBounds(x, y) && (Shifted(x, y) || Shifted(y, x)))
  {
    SameKeyIff(x, y);
    if SameBounds(x, y) && NodeAndSearch(x) == NodeAndSearch(y) {
      TailsAgree(x, y);
    }
    if Shifted(x, y) { ShiftedTails(x, y); }
    if Shifted(y, x) { ShiftedTails(y, x); }
  }

  lemma ShiftedTails(x: Query, y: Query)
    requires Shifted(x, y)
    ensures NodeAndSearch(x) == NodeAndSearch(y)
  {
  }

  lemma TailsAgree(x: Query, y: Query)
    requires Normal(x) && Normal(y) && SameBounds(x, y) && NodeAndSearch(x) == NodeAndSearch(y)
    ensures x == y || Shifted(x, y) || Shifted(y, x)
  {
    var a, b := Text(x.node), Text(y.node);
    if |a| < |b| {
      SplitTwice(a, Text(x.q), b, Text(y.q));
    } else if |b| < |a| {
      SplitTwice(b, Text(y.q), a, Text(x.q));
    } else {
      assert a == NodeAndSearch(x)[..|a|] && b == NodeAndSearch(y)[..|b|];
      assert Text(x.q) == NodeAndSearch(x)[|a| + 3..] && Text(y.q) == NodeAndSearch(y)[|b| + 3..];
      SameText(x.node, y.node);
      SameText(x.q, y.q);
    }
  }

  /** So the key is the question, as long as no node name contains the separator. */
  lemma KeyIsQuestion(x: Query, y: Query)
    requires Normal(x) && Normal(y) && CacheKey(x) == CacheKey(y)
    requires !HasSeparator(Text(x.node)) && !HasSeparator(Text(y.node))
    ensures x == y
  {
    SameKeyIff(x, y);
    var a, b := Text(x.node), Text(y.node);
    if |a| < |b| {
      SplitTwice(a, Text(x.q), b, Text(y.q));
    } else if |b| < |a| {
      SplitTwice(b, Text(y.q), a, Text(x.q));
    } else {
      TailsAgree(x, y);
    }
  }

  /** With such a node name two questions do share a key. */
  lemma SeparatorCollides()
    ensures var x := Query(300, Cpu, Desc, None, Some("a&q=b"), false, 100);
            var y := Query(300, Cpu, Desc, Some("b&q="), Some("a"), false, 100);
            Normal(x) && Normal(y) && x != y && CacheKey(x) == CacheKey(y)
  {
    var x := Query(300, Cpu, Desc, None, Some("a&q=b"), false, 100);
    var y := Query(300, Cpu, Desc, Some("b&q="), Some("a"), false, 100);
    assert Text(x.node) == Text(y.node) + "&q=" + "b";
    assert Text(y.q) == "b" + "&q=" + Text(x.q);
    assert Shifted(y, x);
    KeyCollidesIff(x, y);
  }

  /** Whether a view is pinned is decided by its key, for every pair of queries. */
  lemma PinnedByKey(x: Query, y: Query)
    requires Normal(x) && Normal(y) && CacheKey(x) == CacheKey(y)
    ensures IsHotView(x) == IsHotView(y)
  {
    SameKeyIff(x, y);
    assert |NodeAndSearch(x)| == |Text(x.node)| + 3 + |Text(x.q)|;
    assert |NodeAndSearch(y)| == |Text(y.node)| + 3 + |Text(y.q)|;
  }

  // ---- the handler --------------------------------------------------------

  /** A response body, with the question it answers. */
  datatype Answer<B> = Answer(question: Query, body: B)

  /** Every cached answer is stored under the key of its question, pinned as its question asks. */
  ghost predicate Honest<B>(latest: map<string, Entry<Answer<B>>>) {
    forall k | k in latest ::
      var x := latest[k].body.question; Normal(x) && CacheKey(x) == k && latest[k].pinned == IsHotView(x)
  }

  /** An answer that another request stores while this one waits for the database. */
  datatype Arrival<B> = Arrival(question: Query, body: B, at: nat)

  /** Arrivals between `now` and `later`, in the order of time. */
  ghost predicate Between<B>(others: seq<Arrival<B>>, now: nat, later: nat) {
    && (forall o | o in others :: Normal(o.question) && now <= o.at <= later)
    && (forall i, j | 0 <= i < j < |others| :: others[i].at <= others[j].at)
  }

  /** The cache as the handlers keep it, at some time up to `t`. */
  ghost predicate Kept<B>(cache: TtlCache<Answer<B>>, t: nat)
    reads cache
  {
    (cache.Valid() && cache.steady && Honest(cache.latest) && cache.clock <= t) == true
  }

  /** The time of the last arrival. */
  function LastOf<B>(others: seq<Arrival<B>>, now: nat): nat {
    if others == [] then now else others[|others| - 1].at
  }

  /** Answers are only ever replaced by later ones. */
  ghost predicate Renewed<B>(l: map<string, Entry<Answer<B>>>, l': map<string, Entry<Answer<B>>>) {
    forall k | k in l :: k in l' && l[k].storedAt <= l'[k].storedAt
  }

  lemma RenewedAt<B>(entries: map<string, Entry<Answer<B>>>, latest: map<string, Entry<Answer<B>>>, clock: nat,
                     steady: bool, maxEntries: nat, key: string, e: Entry<Answer<B>>)
    requires Sound(entries, latest, clock, steady, maxEntries) && clock <= e.storedAt
    ensures Renewed(latest, latest[key := e])
  {
  }

  /** Stores an answer under the key of its question. */
  method StoreAnswer<B>(cache: TtlCache<Answer<B>>, x: Query, body: B, at: string -> nat, now: nat)
    requires Kept(cache, now) && Normal(x) && forall k :: cache.clock <= at(k) <= now
    modifies cache
    ensures Kept(cache, now) && old(cache.clock) <= cache.clock
    ensures cache.latest == old(cache.latest)[CacheKey(x) := Entry(now, Answer(x, body), IsHotView(x))]
    ensures Renewed(old(cache.latest), cache.latest)
  {
    StillPinned(cache.entries, cache.latest, cache.clock, cache.steady, cache.maxEntries, x);
    HonestPut(cache.latest, x, body, now);
    RenewedAt(cache.entries, cache.latest, cache.clock, cache.steady, cache.maxEntries, CacheKey(x),
              Entry(now, Answer(x, body), IsHotView(x)));
    cache.Put(CacheKey(x), Answer(x, body), IsHotView(x), at, now);
  }

  method OthersStore<B>(cache: TtlCache<Answer<B>>, others: seq<Arrival<B>>, ghost now: nat, ghost later: nat)
    requires Kept(cache, now) && Between(others, now, later)
    modifies cache
    ensures Kept(cache, LastOf(others, now)) && old(cache.clock) <= cache.clock
    ensures Renewed(old(cache.latest), cache.latest)
  {
    for i := 0 to |others|
      invariant Kept(cache, if i == 0 then now else others[i - 1].at)
      invariant old(cache.clock) <= cache.clock && Renewed(old(cache.latest), cache.latest)
    {
      var o := others[i];
      assert o in others && (i > 0 ==> others[i - 1].at <= o.at);
      StoreAnswer(cache, o.question, o.body, _ => o.at, o.at);
    }
  }

  /**
    Answers a question from the cache, or with what the database says; while that is
    being asked other requests may store their answers. The answer is to this very
    question unless a node name contains the separator; a hit was stored no longer ago
    than the lifetime; a hot view stored within the lifetime is not built again; the
    cache stays as the next request needs it.
   */
  method StateHandler<B>(cache: TtlCache<Answer<B>>, x: Query, built: Option<B>, others: seq<Arrival<B>>,
                         now: nat, at: string -> nat, later: nat)
    returns (r: Option<Answer<B>>, hit: bool)
    requires Kept(cache, now) && Normal(x)
    requires now <= later && Between(others, now, later) && forall k :: LastOf(others, now) <= at(k) <= later
    modifies cache
    ensures Kept(cache, later) && old(cache.clock) <= cache.clock && Renewed(old(cache.latest), cache.latest)
    ensures r.Some? ==> CacheKey(r.value.question) == CacheKey(x)
    ensures r.Some? && !HasSeparator(Text(x.node)) && !HasSeparator(Text(r.value.question.node)) ==>
              r.value.question == x
    ensures hit <==> CacheKey(x) in old(cache.entries) && Fresh(old(cache.entries)[CacheKey(x)], now, cache.ttl)
    ensures hit ==> r.Some? && cache.latest == old(cache.latest)
    ensures hit ==> CacheKey(x) in cache.latest && r.value == cache.latest[CacheKey(x)].body
                    && Fresh(cache.latest[CacheKey(x)], now, cache.ttl)
    ensures !hit ==> r == if built.Some? then Some(Answer(x, built.value)) else None
    ensures !hit && r.Some? ==>
              CacheKey(x) in cache.latest && cache.latest[CacheKey(x)] == Entry(later, r.value, IsHotView(x))
    ensures IsHotView(x) && StoredSince(old(cache.latest), x, now, cache.ttl) ==> hit
  {
    r := cache.Get(CacheKey(x), now);
    hit := r.Some?;
    SameQuestion(cache.latest, x);
    if !hit {
      OthersStore(cache, others, now, later);
      if built.Some? {
        r := Some(Answer(x, built.value));
        StoreAnswer(cache, x, built.value, at, later);
      }
    }
  }

  /** An answer under the query's key that is still within its lifetime. */
  ghost predicate StoredSince<B>(latest: map<string, Entry<Answer<B>>>, x: Query, now: nat, ttl: nat) {
    CacheKey(x) in latest && Fresh(latest[CacheKey(x)], now, ttl)
  }

  // ---- sequences of requests ----------------------------------------------

  /** A request: when it looks into the cache, what the database would say, and when it would store that. */
  datatype Ask<B> = Ask(question: Query, built: Option<B>, others: seq<Arrival<B>>, now: nat, later: nat)

  ghost predicate Asked<B>(asks: seq<Ask<B>>, i: nat, start: nat)
    requires i < |asks|
  {
    var a := asks[i];
    && Normal(a.question) && a.now <= a.later && Between(a.others, a.now, a.later)
    && (if i == 0 then start else asks[i - 1].later) <= a.now
  }

  /** Request `i` had to build its answer, and stored it. */
  predicate Built<B>(asks: seq<Ask<B>>, hits: seq<bool>, i: nat)
    requires i < |hits| <= |asks|
  {
    !hits[i] && asks[i].built.Some?
  }

  /** The answer that request `i` stored, or a later one, is still on record. */
  ghost predicate OnRecord<B>(asks: seq<Ask<B>>, hits: seq<bool>, latest: map<string, Entry<Answer<B>>>, i: nat)
    requires i < |hits| <= |asks|
  {
    var key := CacheKey(asks[i].question);
    Built(asks, hits, i) ==> key in latest && asks[i].later <= latest[key].storedAt
  }

  ghost predicate AllOnRecord<B>(asks: seq<Ask<B>>, hits: seq<bool>, latest: map<string, Entry<Answer<B>>>)
    requires |hits| <= |asks|
  {
    forall i | 0 <= i < |hits| :: OnRecord(asks, hits, latest, i)
  }

  /** A hot view that was built is not built again within its lifetime. */
  ghost predicate NotBuiltAgain<B>(asks: seq<Ask<B>>, hits: seq<bool>, ttl: nat, i: nat, j: nat)
    requires i < j < |hits| <= |asks|
  {
    Built(asks, hits, i) && AskedAgain(asks[i], asks[j], ttl) ==> hits[j]
  }

  /** The later request is for the same hot view, within the lifetime of the earlier one's answer. */
  predicate AskedAgain<B>(a: Ask<B>, b: Ask<B>, ttl: nat) {
    IsHotView(b.question) && b.question == a.question && b.now <= a.later + ttl
  }

  lemma SameHits<B>(asks: seq<Ask<B>>, hits: seq<bool>, hits': seq<bool>, ttl: nat, i: nat, j: nat)
    requires i < j < |hits| <= |hits'| <= |asks| && hits[i] == hits'[i] && hits[j] == hits'[j]
    requires NotBuiltAgain(asks, hits, ttl, i, j)
    ensures NotBuiltAgain(asks, hits', ttl, i, j)
  {
  }

  lemma HotIsStored<B>(asks: seq<Ask<B>>, hits: seq<bool>, latest: map<string, Entry<Answer<B>>>, ttl: nat, hit: bool)
    requires |hits| < |asks| && AllOnRecord(asks, hits, latest)
    requires var a := asks[|hits|]; IsHotView(a.question) && StoredSince(latest, a.question, a.now, ttl) ==> hit
    ensures forall i | 0 <= i < |hits| :: NotBuiltAgain(asks, hits + [hit], ttl, i, |hits|)
  {
    forall i | 0 <= i < |hits| ensures NotBuiltAgain(asks, hits + [hit], ttl, i, |hits|) {
      assert OnRecord(asks, hits, latest, i);
      assert Built(asks, hits + [hit], i) == Built(asks, hits, i);
    }
  }

  lemma StillOnRecord<B>(asks: seq<Ask<B>>, hits: seq<bool>, l: map<string, Entry<Answer<B>>>,
                         l': map<string, Entry<Answer<B>>>, hit: bool)
    requires |hits| < |asks| && AllOnRecord(asks, hits, l) && Renewed(l, l')
    requires var a := asks[|hits|];
             !hit && a.built.Some? ==> CacheKey(a.question) in l' && l'[CacheKey(a.question)].storedAt == a.later
    ensures AllOnRecord(asks, hits + [hit], l')
  {
    forall i | 0 <= i <= |hits| ensures OnRecord(asks, hits + [hit], l', i) {
      if i < |hits| { assert OnRecord(asks, hits, l, i); }
    }
  }

  ghost predicate NeverBuiltAgain<B>(asks: seq<Ask<B>>, hits: seq<bool>, ttl: nat)
    requires |hits| <= |asks|
  {
    forall i, j | 0 <= i < j < |hits| :: NotBuiltAgain(asks, hits, ttl, i, j)
  }

  lemma NeverSoFar<B>(asks: seq<Ask<B>>, hits: seq<bool>, ttl: nat, hit: bool)
    requires |hits| < |asks| && NeverBuiltAgain(asks, hits, ttl)
    requires forall i | 0 <= i < |hits| :: NotBuiltAgain(asks, hits + [hit], ttl, i, |hits|)
    ensures NeverBuiltAgain(asks, hits + [hit], ttl)
  {
    forall i, j | 0 <= i < j <= |hits| ensures NotBuiltAgain(asks, hits + [hit], ttl, i, j) {
      if j < |hits| {
        assert NotBuiltAgain(asks, hits, ttl, i, j);
        SameHits(asks, hits, hits + [hit], ttl, i, j);
      }
    }
  }

  /**
    One request against what was on record: a hit is the recorded answer, still within
    its lifetime, and leaves the record alone; a miss answers what was built and records
    that; a hot view on record within its lifetime is always a hit.
   */
  ghost predicate Answered<B>(a: Ask<B>, record: map<string, Entry<Answer<B>>>, record': map<string, Entry<Answer<B>>>,
                              ttl: nat, r: Option<Answer<B>>, hit: bool) {
    var key := CacheKey(a.question);
    && (hit ==> StoredSince(record, a.question, a.now, ttl) && r == Some(record[key].body) && record' == record)
    && (!hit ==> r == if a.built.Some? then Some(Answer(a.question, a.built.value)) else None)
    && (!hit && a.built.Some? ==> key in record' && record'[key] == Entry(a.later, r.value, IsHotView(a.question)))
    && (IsHotView(a.question) && StoredSince(record, a.question, a.now, ttl) ==> hit)
    && Renewed(record, record')
  }

  ghost predicate AnsweredAt<B>(asks: seq<Ask<B>>, records: seq<map<string, Entry<Answer<B>>>>, ttl: nat,
                                answers: seq<Option<Answer<B>>>, hits: seq<bool>, i: nat)
    requires i < |answers| == |hits| <= |asks| && |records| == |hits| + 1
  {
    Answered(asks[i], records[i], records[i + 1], ttl, answers[i], hits[i])
  }

  ghost predicate AllAnswered<B>(asks: seq<Ask<B>>, records: seq<map<string, Entry<Answer<B>>>>, ttl: nat,
                                 answers: seq<Option<Answer<B>>>, hits: seq<bool>)
    requires |answers| == |hits| <= |asks| && |records| == |hits| + 1
  {
    forall i | 0 <= i < |hits| :: AnsweredAt(asks, records, ttl, answers, hits, i)
  }

  lemma OneMoreAnswered<B>(asks: seq<Ask<B>>, records: seq<map<string, Entry<Answer<B>>>>, ttl: nat,
                           answers: seq<Option<Answer<B>>>, hits: seq<bool>,
                           record: map<string, Entry<Answer<B>>>, r: Option<Answer<B>>, hit: bool)
    requires |answers| == |hits| < |asks| && |records| == |hits| + 1 && AllAnswered(asks, records, ttl, answers, hits)
    requires Answered(asks[|hits|], records[|hits|], record, ttl, r, hit)
    ensures AllAnswered(asks, records + [record], ttl, answers + [r], hits + [hit])
  {
    forall i | 0 <= i <= |hits| ensures AnsweredAt(asks, records + [record], ttl, answers + [r], hits + [hit], i) {
      if i < |hits| { assert AnsweredAt(asks, records, ttl, answers, hits, i); }
    }
  }

  /**
    Any sequence of requests: each is answered from the record or by what was built for
    it, the record being what the requests before it left; no hot view is built twice
    within its lifetime, and the cache stays bounded.
   */
  method Serve<B>(cache: TtlCache<Answer<B>>, asks: seq<Ask<B>>, start: nat)
    returns (answers: seq<Option<Answer<B>>>, hits: seq<bool>, ghost records: seq<map<string, Entry<Answer<B>>>>)
    requires Kept(cache, start) && forall i | 0 <= i < |asks| :: Asked(asks, i, start)
    modifies cache
    ensures Kept(cache, TimeOf(asks, |asks|, start))
    ensures |answers| == |hits| == |asks| && |records| == |asks| + 1
    ensures records[0] == old(cache.latest) && records[|asks|] == cache.latest
    ensures AllAnswered(asks, records, cache.ttl, answers, hits)
    ensures NeverBuiltAgain(asks, hits, cache.ttl)
    ensures |cache.entries| <= cache.maxEntries || |cache.entries| <= |PinnedKeys(cache.latest)| + 1
  {
    answers, hits, records := [], [], [cache.latest];
    NothingServed(asks, cache.ttl, cache.latest);
    for n := 0 to |asks|
      invariant Kept(cache, TimeOf(asks, n, start))
      invariant Served(asks, n, cache.ttl, old(cache.latest), cache.latest, records, answers, hits)
    {
      var r, hit := ServeNext(cache, asks, n, start, old(cache.latest), records, answers, hits);
      answers, hits, records := answers + [r], hits + [hit], records + [cache.latest];
    }
    SoundMeans(cache.entries, cache.latest, cache.clock, cache.steady, cache.maxEntries);
  }

  /** The time after the first `n` requests. */
  function TimeOf<B>(asks: seq<Ask<B>>, n: nat, start: nat): nat
    requires n <= |asks|
  {
    if n == 0 then start else asks[n - 1].later
  }

  method ServeNext<B>(cache: TtlCache<Answer<B>>, asks: seq<Ask<B>>, n: nat, ghost start: nat,
                      ghost first: map<string, Entry<Answer<B>>>, ghost records: seq<map<string, Entry<Answer<B>>>>,
                      ghost answers: seq<Option<Answer<B>>>, ghost hits: seq<bool>)
    returns (r: Option<Answer<B>>, hit: bool)
    requires n < |asks| && Kept(cache, TimeOf(asks, n, start)) && Asked(asks, n, start)
    requires Served(asks, n, cache.ttl, first, cache.latest, records, answers, hits)
    modifies cache
    ensures Kept(cache, TimeOf(asks, n + 1, start))
    ensures Served(asks, n + 1, cache.ttl, first, cache.latest, records + [cache.latest], answers + [r], hits + [hit])
  {
    ghost var before := cache.latest;
    r, hit := Request(cache, asks[n]);
    ServedNext(asks, n, cache.ttl, first, before, cache.latest, records, answers, hits, r, hit);
  }

  lemma NothingServed<B>(asks: seq<Ask<B>>, ttl: nat, first: map<string, Entry<Answer<B>>>)
    ensures Served(asks, 0, ttl, first, first, [first], [], [])
  {
  }

  /** The first `n` requests served, the record having gone from `first` to `last`. */
  ghost predicate Served<B>(asks: seq<Ask<B>>, n: nat, ttl: nat, first: map<string, Entry<Answer<B>>>,
                            last: map<string, Entry<Answer<B>>>, records: seq<map<string, Entry<Answer<B>>>>,
                            answers: seq<Option<Answer<B>>>, hits: seq<bool>)
    requires n <= |asks|
  {
    (&& |answers| == |hits| == n && |records| == n + 1 && records[0] == first && records[n] == last
     && AllAnswered(asks, records, ttl, answers, hits)
     && AllOnRecord(asks, hits, last) && NeverBuiltAgain(asks, hits, ttl)) == true
  }

  lemma ServedNext<B>(asks: seq<Ask<B>>, n: nat, ttl: nat, first: map<string, Entry<Answer<B>>>,
                      before: map<string, Entry<Answer<B>>>, last: map<string, Entry<Answer<B>>>,
                      records: seq<map<string, Entry<Answer<B>>>>, answers: seq<Option<Answer<B>>>, hits: seq<bool>,
                      r: Option<Answer<B>>, hit: bool)
    requires n < |asks| && Served(asks, n, ttl, first, before, records, answers, hits)
    requires Answered(asks[n], before, last, ttl, r, hit)
    ensures Served(asks, n + 1, ttl, first, last, records + [last], answers + [r], hits + [hit])
  {
    OneMoreAnswered(asks, records, ttl, answers, hits, last, r, hit);
    HotIsStored(asks, hits, before, ttl, hit);
    NeverSoFar(asks, hits, ttl, hit);
    StillOnRecord(asks, hits, before, last, hit);
  }

  method Request<B>(cache: TtlCache<Answer<B>>, a: Ask<B>) returns (r: Option<Answer<B>>, hit: bool)
    requires Kept(cache, a.now) && Normal(a.question) && a.now <= a.later && Between(a.others, a.now, a.later)
    modifies cache
    ensures Kept(cache, a.later) && Answered(a, old(cache.latest), cache.latest, cache.ttl, r, hit)
  {
    r, hit := StateHandler(cache, a.question, a.built, a.others, a.now, _ => a.later, a.later);
  }

  lemma SameQuestion<B>(latest: map<string, Entry<Answer<B>>>, x: Query)
    requires Honest(latest) && Normal(x)
    ensures CacheKey(x) in latest ==>
              var y := latest[CacheKey(x)].body.question;
              && CacheKey(y) == CacheKey(x) && latest[CacheKey(x)].pinned == IsHotView(x)
              && (!HasSeparator(Text(x.node)) && !HasSeparator(Text(y.node)) ==> y == x)
  {
    if CacheKey(x) in latest {
      var y := latest[CacheKey(x)].body.question;
      PinnedByKey(y, x);
      if !HasSeparator(Text(x.node)) && !HasSeparator(Text(y.node)) {
        KeyIsQuestion(x, y);
      }
    }
  }

  lemma StillPinned<B>(entries: map<string, Entry<Answer<B>>>, latest: map<string, Entry<Answer<B>>>, clock: nat,
                       steady: bool, maxEntries: nat, x: Query)
    requires Sound(entries, latest, clock, steady, maxEntries) && Honest(latest) && Normal(x)
    ensures CacheKey(x) in entries ==> entries[CacheKey(x)].pinned == IsHotView(x)
  {
    SameQuestion(latest, x);
  }

  lemma HonestPut<B>(latest: map<string, Entry<Answer<B>>>, x: Query, body: B, now: nat)
    requires Honest(latest) && Normal(x)
    ensures Honest(latest[CacheKey(x) := Entry(now, Answer(x, body), IsHotView(x))])
  {
  }
}
