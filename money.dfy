/** A player's money: the balance, and the income of the last minute tracked in one
    bucket per second of a ring buffer, with a running total of the buckets.

    All four quantities are `UnsignedInt`s, so every addition and subtraction wraps
    modulo 2^32; the running total is the buckets' sum taken modulo 2^32. */
module RtsMoney {
  import opened Wrappers
  import opened XferEngine

  /** Number of income buckets: one per second of a minute. */
  const NumBuckets: nat := 60
  /** `LOGICFRAMES_PER_SECOND`. */
  const LogicFramesPerSecond: nat := 30
  const U32: nat := 0x1_0000_0000
  /** The save version written by a build that tracks income. */
  const CurrentVersion: int := 2

  function Wrap32(x: int): nat { x % U32 }

  function Sum(xs: seq<nat>): nat
  {
    if xs == [] then 0 else Sum(xs[..|xs| - 1]) + xs[|xs| - 1]
  }

  predicate InRange(xs: seq<nat>)
  {
    forall i :: 0 <= i < |xs| ==> xs[i] < U32
  }

  /** The four fields of a `Money`. */
  datatype MoneyState = MoneyState(money: nat, buckets: seq<nat>, current: nat, cashPerMinute: nat)

  /** Every field fits its 32 bits, there are `NumBuckets` buckets, and the running total
      is their sum. The current bucket is not required to be in range: a loaded one is
      not checked, and the next bucket update replaces it. */
  predicate ValidState(st: MoneyState)
  {
    |st.buckets| == NumBuckets && InRange(st.buckets) &&
    st.money < U32 && st.current < U32 &&
    st.cashPerMinute == Wrap32(Sum(st.buckets))
  }

  // ---------------------------------------------------------------------------
  // Sums modulo 2^32

  lemma {:induction false} SumZeros(xs: seq<nat>)
    requires forall i :: 0 <= i < |xs| ==> xs[i] == 0
    ensures Sum(xs) == 0
  {
    if xs != [] {
      SumZeros(xs[..|xs| - 1]);
    }
  }

  /** Replacing one bucket changes the sum by the difference. */
  lemma {:induction false} SumUpdate(xs: seq<nat>, i: nat, v: nat)
    requires i < |xs|
    ensures Sum(xs[i := v]) == Sum(xs) - xs[i] + v
    decreases |xs|
  {
    var n := |xs|;
    if i < n - 1 {
      assert xs[i := v][..n - 1] == xs[..n - 1][i := v];
      SumUpdate(xs[..n - 1], i, v);
    } else {
      assert xs[i := v][..n - 1] == xs[..n - 1];
    }
  }

  lemma SumSnoc(xs: seq<nat>, i: nat)
    requires i < |xs|
    ensures Sum(xs[..i + 1]) == Sum(xs[..i]) + xs[i]
  {
    assert xs[..i + 1][..i] == xs[..i];
  }

  lemma ModAdd(a: int, b: int)
    ensures Wrap32(Wrap32(a) + b) == Wrap32(a + b)
  {
    var q := a / U32;
    assert a == q * U32 + Wrap32(a);
    assert Wrap32(a) + b == (a + b) - q * U32;
    ModMinusMultiple(a + b, q);
  }

  lemma ModMinusMultiple(x: int, q: int)
    ensures Wrap32(x - q * U32) == Wrap32(x)
  {
    var r := Wrap32(x);
    var p := x / U32;
    assert x == p * U32 + r;
    assert x - q * U32 == (p - q) * U32 + r;
  }

  /** Wrapping a bucket after adding to it leaves the wrapped sum as if the bucket had
      not wrapped. */
  lemma WrappedBucketAdd(total: int, b: nat, a: nat)
    ensures Wrap32(total - b + Wrap32(b + a)) == Wrap32(total + a)
  {
    var q := (b + a) / U32;
    assert b + a == q * U32 + Wrap32(b + a);
    assert total - b + Wrap32(b + a) == (total + a) - q * U32;
    ModMinusMultiple(total + a, q);
  }

  // ---------------------------------------------------------------------------
  // Operations on the state

  /** What `withdraw` takes: the request, but never more than the balance. */
  function Taken(st: MoneyState, amount: nat): (r: nat)
    ensures r <= amount && r <= st.money
    ensures r == amount || r == st.money
  {
    if amount > st.money then st.money else amount
  }

  function AfterWithdraw(st: MoneyState, amount: nat): MoneyState
  {
    st.(money := st.money - Taken(st, amount))
  }

  /** `deposit`: the balance grows; only tracked income enters the current bucket and the
      running total. A deposit of 0 changes nothing. */
  function AfterDeposit(st: MoneyState, amount: nat, trackIncome: bool): MoneyState
    requires trackIncome && amount > 0 ==> st.current < |st.buckets|
  {
    if amount == 0 then st
    else if trackIncome then
      st.(money := Wrap32(st.money + amount),
          buckets := st.buckets[st.current := Wrap32(st.buckets[st.current] + amount)],
          cashPerMinute := Wrap32(st.cashPerMinute + amount))
    else st.(money := Wrap32(st.money + amount))
  }

  /** Every bucket empty. */
  function NoIncome(): (r: seq<nat>)
    ensures |r| == NumBuckets && forall i :: 0 <= i < |r| ==> r[i] == 0
  {
    seq(NumBuckets, _ => 0)
  }

  /** `setStartingCash`: the given balance and no income tracked. */
  function StartingCash(amount: nat): MoneyState
  {
    MoneyState(amount, NoIncome(), 0, 0)
  }

  /** The bucket for a frame: whole seconds since the start, round the ring. */
  function BucketOf(frame: nat): (r: nat)
    ensures r < NumBuckets
  {
    (frame / LogicFramesPerSecond) % NumBuckets
  }

  /** `updateIncomeBucket`: entering a new second drops the income recorded a minute
      earlier in that bucket from the total and empties the bucket. */
  function AfterUpdate(st: MoneyState, frame: nat): MoneyState
    requires |st.buckets| == NumBuckets
  {
    var next := BucketOf(frame);
    if next != st.current then
      st.(cashPerMinute := Wrap32(st.cashPerMinute - st.buckets[next]),
          current := next,
          buckets := st.buckets[next := 0])
    else st
  }

  /** A withdrawal never takes the balance below zero, takes the whole request when the
      balance covers it, and keeps the income tracking as it was. */
  lemma WithdrawKeepsValid(st: MoneyState, amount: nat)
    requires ValidState(st)
    ensures ValidState(AfterWithdraw(st, amount))
    ensures AfterWithdraw(st, amount).money + Taken(st, amount) == st.money
    ensures amount <= st.money ==> Taken(st, amount) == amount
    ensures amount == 0 ==> AfterWithdraw(st, amount) == st
  {
  }

  /** A deposit keeps the running total equal to the buckets' sum. */
  lemma DepositKeepsValid(st: MoneyState, amount: nat, trackIncome: bool)
    requires ValidState(st) && amount < U32
    requires trackIncome && amount > 0 ==> st.current < NumBuckets
    ensures ValidState(AfterDeposit(st, amount, trackIncome))
    ensures AfterDeposit(st, amount, trackIncome).money == Wrap32(st.money + amount)
  {
    if amount > 0 && trackIncome {
      var b := st.buckets[st.current];
      var bs := st.buckets[st.current := Wrap32(b + amount)];
      SumUpdate(st.buckets, st.current, Wrap32(b + amount));
      WrappedBucketAdd(Sum(st.buckets), b, amount);
      ModAdd(Sum(st.buckets), amount);
    }
  }

  /** Moving to a new bucket keeps the running total equal to the buckets' sum, and the
      current bucket is then the frame's bucket. */
  lemma UpdateKeepsValid(st: MoneyState, frame: nat)
    requires ValidState(st)
    ensures ValidState(AfterUpdate(st, frame))
    ensures AfterUpdate(st, frame).current == BucketOf(frame)
    ensures AfterUpdate(st, frame).money == st.money
  {
    var next := BucketOf(frame);
    if next != st.current {
      var b := st.buckets[next];
      SumUpdate(st.buckets, next, 0);
      var drop: int := -(b as int);
      ModAdd(Sum(st.buckets), drop);
    }
  }

  lemma StartingCashValid(amount: nat)
    requires amount < U32
    ensures ValidState(StartingCash(amount))
  {
    SumZeros(NoIncome());
  }

  // ---------------------------------------------------------------------------
  // Save and load

  /** The wrapped form of loaded integers: a 32-bit read keeps the low 32 bits. */
  function Wrapped(xs: seq<int>): (r: seq<nat>)
    ensures |r| == |xs| && forall i :: 0 <= i < |xs| ==> r[i] == Wrap32(xs[i])
  {
    seq(|xs|, i requires 0 <= i < |xs| => Wrap32(xs[i]))
  }

  /** `xferUser` on the bucket array. */
  function BucketsOutcome(m: XferMode, s: seq<Token>, bs: seq<nat>): Outcome<seq<nat>>
  {
    match m
    case Load =>
      (match LoadedNums(s, NumBuckets)
       case Ok((xs, s')) => Ok((Wrapped(xs), s'))
       case Err(e) => Err(e))
    case Save => Ok((bs, s + Nums(bs)))
    case Crc => Ok((bs, s + Nums(bs)))
    case Invalid => Ok((bs, s))
  }

  /** The version-2 part of `Money::xfer`: the buckets and the current bucket, after
      which the running total is recomputed from the buckets. */
  function IncomeOutcome(m: XferMode, s: seq<Token>, st: MoneyState): Outcome<MoneyState>
  {
    match BucketsOutcome(m, s, st.buckets)
    case Err(e) => Err(e)
    case Ok((bs, s1)) =>
      match NumOutcome(m, s1, st.current)
      case Err(e) => Err(e)
      case Ok((c, s2)) => Ok((MoneyState(st.money, bs, Wrap32(c), Wrap32(Sum(bs))), s2))
  }

  /** `Money::xfer`: the version, the balance, and for version 2 the income tracking; an
      older save resets the income tracking. */
  function MoneyOutcome(m: XferMode, s: seq<Token>, st: MoneyState): (o: Outcome<MoneyState>)
  {
    match VersionOutcome(m, s, CurrentVersion, CurrentVersion)
    case Err(e) => Err(e)
    case Ok((version, s1)) =>
      match NumOutcome(m, s1, st.money)
      case Err(e) => Err(e)
      case Ok((v, s2)) =>
        if version <= 1 then Ok((StartingCash(Wrap32(v)), s2))
        else IncomeOutcome(m, s2, st.(money := Wrap32(v)))
  }

  /** What saving the income tracking writes. */
  function IncomeTokens(st: MoneyState): seq<Token>
  {
    Nums(st.buckets) + [Num(st.current)]
  }

  /** What saving a state writes. */
  function MoneyTokens(st: MoneyState): seq<Token>
  {
    [Num(CurrentVersion), Num(st.money)] + IncomeTokens(st)
  }

  /** Every successful transfer of a state with a full bucket array yields a valid state. */
  lemma MoneyOutcomeValid(m: XferMode, s: seq<Token>, st: MoneyState)
    requires |st.buckets| == NumBuckets && InRange(st.buckets)
    ensures MoneyOutcome(m, s, st).Ok? ==> ValidState(MoneyOutcome(m, s, st).value.0)
  {
    var o := VersionOutcome(m, s, CurrentVersion, CurrentVersion);
    if o.Ok? {
      var s1 := o.value.1;
      if NumOutcome(m, s1, st.money).Ok? {
        var v := NumOutcome(m, s1, st.money).value.0;
        var s2 := NumOutcome(m, s1, st.money).value.1;
        if o.value.0 <= 1 {
          StartingCashValid(Wrap32(v));
        } else {
          IncomeOutcomeValid(m, s2, st.(money := Wrap32(v)));
        }
      }
    }
  }

  /** A successful transfer of the income tracking yields a valid state. */
  lemma IncomeOutcomeValid(m: XferMode, s: seq<Token>, st: MoneyState)
    requires |st.buckets| == NumBuckets && InRange(st.buckets) && st.money < U32
    ensures IncomeOutcome(m, s, st).Ok? ==> ValidState(IncomeOutcome(m, s, st).value.0)
  {
    if m.Load? {
      LoadedNumsLength(s, NumBuckets);
    }
  }

  lemma IncomeSaved(st: MoneyState, s0: seq<Token>)
    requires ValidState(st)
    ensures IncomeOutcome(Save, s0, st) == Ok((st, s0 + IncomeTokens(st)))
  {
    assert s0 + Nums(st.buckets) + [Num(st.current)] == s0 + IncomeTokens(st);
  }

  lemma WrapSmall(x: int)
    requires 0 <= x < U32
    ensures Wrap32(x) == x
  {
  }

  lemma WrappedInRange(xs: seq<nat>)
    requires InRange(xs)
    ensures Wrapped(xs) == xs
  {
    forall i | 0 <= i < |xs| ensures Wrapped(xs)[i] == xs[i] {
      WrapSmall(xs[i]);
    }
  }

  lemma BucketsLoaded(bs: seq<nat>, tail: seq<Token>, before: seq<nat>)
    requires |bs| == NumBuckets && InRange(bs)
    ensures BucketsOutcome(Load, Nums(bs) + tail, before) == Ok((bs, tail))
  {
    LoadedNumsOfSaved(bs, tail);
    WrappedInRange(bs);
  }

  lemma IncomeLoaded(st: MoneyState, rest: seq<Token>, before: MoneyState)
    requires ValidState(st) && before.money == st.money
    ensures IncomeOutcome(Load, IncomeTokens(st) + rest, before) == Ok((st, rest))
  {
    var tail := [Num(st.current)] + rest;
    assert IncomeTokens(st) + rest == Nums(st.buckets) + tail;
    BucketsLoaded(st.buckets, tail, before.buckets);
    assert NumOutcome(Load, tail, before.current) == Ok((st.current, rest));
    WrapSmall(st.current);
  }

  /** Saving writes the state's tokens and keeps the state. */
  lemma MoneySaved(st: MoneyState, s0: seq<Token>)
    requires ValidState(st)
    ensures MoneyOutcome(Save, s0, st) == Ok((st, s0 + MoneyTokens(st)))
  {
    var s2 := s0 + [Num(CurrentVersion)] + [Num(st.money)];
    IncomeSaved(st, s2);
    assert st.(money := Wrap32(st.money)) == st;
    assert s2 + IncomeTokens(st) == s0 + MoneyTokens(st);
  }

  /** Loading the tokens of a saved state restores it, whatever the object held before. */
  lemma MoneyLoaded(st: MoneyState, rest: seq<Token>, before: MoneyState)
    requires ValidState(st)
    ensures MoneyOutcome(Load, MoneyTokens(st) + rest, before) == Ok((st, rest))
  {
    var s := MoneyTokens(st) + rest;
    assert s[0] == Num(CurrentVersion) && s[1] == Num(st.money);
    assert VersionOutcome(Load, s, CurrentVersion, CurrentVersion) == Ok((CurrentVersion, s[1..]));
    assert NumOutcome(Load, s[1..], before.money) == Ok((st.money, s[2..]));
    assert s[2..] == IncomeTokens(st) + rest;
    WrapSmall(st.money);
    IncomeLoaded(st, rest, before.(money := st.money));
  }

  /** A version-1 save holds only the balance: loading it resets income tracking. */
  lemma MoneyLegacyLoad(money: int, rest: seq<Token>, before: MoneyState)
    ensures MoneyOutcome(Load, [Num(1), Num(money)] + rest, before) == Ok((StartingCash(Wrap32(money)), rest))
  {
    var s := [Num(1), Num(money)] + rest;
    assert s[1..][1..] == rest;
  }

  /** A save newer than version 2 is refused before anything is read. */
  lemma MoneyRejectsNewer(v: int, rest: seq<Token>, before: MoneyState)
    requires v > CurrentVersion
    ensures MoneyOutcome(Load, [Num(v)] + rest, before) == Err(InvalidVersion)
  {
  }

  // ---------------------------------------------------------------------------
  // The class

  class Money {
    var money: nat
    var incomeBuckets: array<nat>
    var currentBucket: nat
    var cashPerMinute: nat

    function State(): MoneyState
      reads this, incomeBuckets
    {
      MoneyState(money, incomeBuckets[..], currentBucket, cashPerMinute)
    }

    predicate Valid()
      reads this, incomeBuckets
    {
      ValidState(State())
    }

    /** A new account, as after `setStartingCash(0)`. */
    constructor ()
      ensures Valid() && State() == StartingCash(0) && fresh(incomeBuckets)
    {
      money := 0;
      incomeBuckets := new nat[NumBuckets](_ => 0);
      currentBucket := 0;
      cashPerMinute := 0;
      new;
      assert incomeBuckets[..] == NoIncome();
      StartingCashValid(0);
    }

    method Withdraw(amount: nat) returns (taken: nat)
      requires Valid() && amount < U32
      modifies this
      ensures incomeBuckets == old(incomeBuckets)
      ensures taken == Taken(old(State()), amount)
      ensures State() == AfterWithdraw(old(State()), amount) && Valid()
    {
      WithdrawKeepsValid(State(), amount);
      taken := amount;
      if taken > money {
        taken := money;
      }
      if taken == 0 {
        return;
      }
      money := money - taken;
    }

    method Deposit(amount: nat, trackIncome: bool)
      requires Valid() && amount < U32
      requires trackIncome && amount > 0 ==> currentBucket < NumBuckets
      modifies this, incomeBuckets
      ensures incomeBuckets == old(incomeBuckets)
      ensures State() == AfterDeposit(old(State()), amount, trackIncome) && Valid()
    {
      DepositKeepsValid(State(), amount, trackIncome);
      if amount == 0 {
        return;
      }
      if trackIncome {
        incomeBuckets[currentBucket] := Wrap32(incomeBuckets[currentBucket] + amount);
        cashPerMinute := Wrap32(cashPerMinute + amount);
      }
      money := Wrap32(money + amount);
    }

    method SetStartingCash(amount: nat)
      requires incomeBuckets.Length == NumBuckets && amount < U32
      modifies this, incomeBuckets
      ensures incomeBuckets == old(incomeBuckets)
      ensures State() == StartingCash(amount) && Valid()
    {
      money := amount;
      var i := 0;
      while i < incomeBuckets.Length
        invariant 0 <= i <= incomeBuckets.Length && incomeBuckets == old(incomeBuckets) && money == amount
        invariant forall j :: 0 <= j < i ==> incomeBuckets[j] == 0
      {
        incomeBuckets[i] := 0;
        i := i + 1;
      }
      currentBucket := 0;
      cashPerMinute := 0;
      assert incomeBuckets[..] == NoIncome();
      StartingCashValid(amount);
    }

    /** `frame` is the logic frame the game is on. */
    method UpdateIncomeBucket(frame: nat)
      requires Valid()
      modifies this, incomeBuckets
      ensures incomeBuckets == old(incomeBuckets)
      ensures State() == AfterUpdate(old(State()), frame) && Valid()
    {
      UpdateKeepsValid(State(), frame);
      var next := (frame / LogicFramesPerSecond) % incomeBuckets.Length;
      if next != currentBucket {
        cashPerMinute := Wrap32(cashPerMinute - incomeBuckets[next]);
        currentBucket := next;
        incomeBuckets[currentBucket] := 0;
      }
    }

    /** The income of the last minute: the sum of the buckets. */
    function GetCashPerMinute(): (r: nat)
      reads this, incomeBuckets
      requires Valid()
      ensures r == Wrap32(Sum(incomeBuckets[..])) && r < U32
    {
      cashPerMinute
    }

    /** `std::accumulate` over the buckets in unsigned arithmetic. */
    method Accumulate() returns (total: nat)
      ensures total == Wrap32(Sum(incomeBuckets[..]))
    {
      total := 0;
      var i := 0;
      while i < incomeBuckets.Length
        invariant 0 <= i <= incomeBuckets.Length
        invariant total == Wrap32(Sum(incomeBuckets[..i]))
      {
        SumSnoc(incomeBuckets[..], i);
        assert incomeBuckets[..][..i] == incomeBuckets[..i];
        assert incomeBuckets[..][..i + 1] == incomeBuckets[..i + 1];
        ModAdd(Sum(incomeBuckets[..i]), incomeBuckets[i]);
        total := Wrap32(total + incomeBuckets[i]);
        i := i + 1;
      }
      assert incomeBuckets[..i] == incomeBuckets[..];
    }

    /** Fills the bucket array from a sequence. */
    method StoreBuckets(bs: seq<nat>)
      requires |bs| == incomeBuckets.Length
      modifies incomeBuckets
      ensures incomeBuckets[..] == bs
    {
      var i := 0;
      while i < |bs|
        invariant 0 <= i <= |bs|
        invariant forall j :: 0 <= j < i ==> incomeBuckets[j] == bs[j]
      {
        incomeBuckets[i] := bs[i];
        i := i + 1;
      }
    }

    /** `xferUser` on the bucket array: what the buckets are to become. */
    method XferBuckets(x: Xfer) returns (bs: seq<nat>, err: Option<XferError>)
      modifies x
      ensures x.mode == old(x.mode)
      ensures Agrees(BucketsOutcome(old(x.mode), old(x.stream), incomeBuckets[..]), bs, x.stream, err)
      ensures err.None? ==> |bs| == incomeBuckets.Length || x.mode.Load?
      ensures err.None? && x.mode.Load? ==> |bs| == NumBuckets
    {
      ghost var s := x.stream;
      bs, err := incomeBuckets[..], None;
      if x.mode == Load {
        var xs;
        xs, err := x.LoadNums(NumBuckets);
        if err.Some? {
          return;
        }
        LoadedNumsLength(s, NumBuckets);
        bs := Wrapped(xs);
      } else if x.mode == Save || x.mode == Crc {
        x.SaveNums(bs);
      }
    }

    /** The version-2 part of `xfer`, for an account whose balance is already in place. */
    method XferIncome(x: Xfer) returns (err: Option<XferError>)
      requires incomeBuckets.Length == NumBuckets
      modifies this, incomeBuckets, x
      ensures incomeBuckets == old(incomeBuckets) && x.mode == old(x.mode)
      ensures Agrees(IncomeOutcome(old(x.mode), old(x.stream), old(State())), State(), x.stream, err)
    {
      ghost var st := State();
      var bs;
      bs, err := XferBuckets(x);
      if err.Some? {
        return;
      }
      ghost var s1 := x.stream;
      StoreBuckets(bs);
      var c;
      c, err := x.XferNum(currentBucket);
      if err.Some? {
        return;
      }
      currentBucket := Wrap32(c);
      cashPerMinute := Accumulate();
      assert State() == MoneyState(st.money, bs, Wrap32(c), Wrap32(Sum(bs)));
    }

    /** `xfer`: saving writes the state, loading replaces it; on success the account is
      valid again. */
    method Xfer(x: Xfer) returns (err: Option<XferError>)
      requires Valid()
      modifies this, incomeBuckets, x
      ensures incomeBuckets == old(incomeBuckets) && x.mode == old(x.mode)
      ensures Agrees(MoneyOutcome(old(x.mode), old(x.stream), old(State())), State(), x.stream, err)
      ensures err.None? ==> Valid()
    {
      MoneyOutcomeValid(x.mode, x.stream, State());
      var version;
      version, err := x.XferVersion(CurrentVersion, CurrentVersion);
      if err.Some? {
        return;
      }
      var v;
      v, err := x.XferNum(money);
      if err.Some? {
        return;
      }
      money := Wrap32(v);
      if version <= 1 {
        SetStartingCash(money);
      } else {
        err := XferIncome(x);
      }
    }
  }
}
