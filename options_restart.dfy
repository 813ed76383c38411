/** The rolling-restart options and their validation (`pkg/options/restart.go`).
    `RestartOptions` is a plain value: no method of the Go struct changes it.
    External collaborators are parameters: `urlParses` is whether Go's `url.Parse`
    accepts a string, `cmsError` is what `CMS.Validate` returned, and
    `modeValues` is the generated `Ydb_Maintenance.AvailabilityMode_value` table. */
module Options {
  import opened GoTypes
  import Strconv

  const DefaultRetryCount: int := 3
  const DefaultRestartDuration: int := 3

  /** The accepted `--availability-mode` values, the first being the default. */
  const AvailabilityModes: seq<string> := ["strong", "weak", "force"]

  datatype RestartOptions = RestartOptions(
    availabilityMode: string,
    tenants: seq<string>,
    hosts: seq<string>,
    excludeHosts: seq<string>,
    restartDuration: int64,
    restartRetryNumber: int64,
    continueRun: bool)

  /** Why one `--hosts` entry is not a node id. */
  datatype NodeIdError =
    | NodeIdUnparsed(cause: Strconv.NumError)
    | NodeIdNegative(id: int)

  /** Why one `--hosts` entry is not a host FQDN. */
  datatype FqdnError = InvalidFqdn(host: string)

  /** The errors `Validate` reports, one per guard, in guard order. */
  datatype ValidationError =
    | UnsupportedAvailabilityMode(mode: string)
    | InvalidRestartDuration(seconds: int)
    | InvalidRestartRetryNumber(count: int)
    | UnparsableHosts(asNodeIds: NodeIdError, asFqdns: FqdnError)
    | CmsInvalid(message: string)

  /** One loop iteration of `GetNodeIds`: `Atoi`, refuse negatives, cast to uint32. */
  function ParseNodeId(entry: string): Result<uint32, NodeIdError>
  {
    match Strconv.Atoi(entry)
    case Err(e) => Err(NodeIdUnparsed(e))
    case Ok(id) => if id < 0 then Err(NodeIdNegative(id)) else Ok(ToUint32(id))
  }

  /** Every entry of `hosts` reads as a node id. */
  predicate AllNodeIds(hosts: seq<string>) {
    forall i | 0 <= i < |hosts| :: ParseNodeId(hosts[i]).Ok?
  }

  /** Entry `k` is the first one that does not read as a node id. */
  predicate FirstBadNodeId(hosts: seq<string>, k: int) {
    0 <= k < |hosts| && ParseNodeId(hosts[k]).Err? &&
    forall j | 0 <= j < k :: ParseNodeId(hosts[j]).Ok?
  }

  /** Every entry of `hosts` is accepted by `url.Parse`. */
  predicate AllFqdns(hosts: seq<string>, urlParses: string -> bool) {
    forall i | 0 <= i < |hosts| :: urlParses(hosts[i])
  }

  /** Entry `k` is the first one `url.Parse` rejects. */
  predicate FirstBadFqdn(hosts: seq<string>, urlParses: string -> bool, k: int) {
    0 <= k < |hosts| && !urlParses(hosts[k]) &&
    forall j | 0 <= j < k :: urlParses(hosts[j])
  }

  /** An entry is a node id exactly when it is an optionally signed decimal whose
      value lies in [0, 2^63); the id is that value's low 32 bits, so order and
      length are kept but ids of 2^32 and more wrap around. */
  lemma ParseNodeIdMeaning(entry: string)
    ensures ParseNodeId(entry).Ok? <==>
      Strconv.IsDecimal(entry) && 0 <= Strconv.SignedValue(entry) < TwoTo63
    ensures ParseNodeId(entry).Ok? ==>
      ParseNodeId(entry).value == Strconv.SignedValue(entry) % TwoTo32
    ensures ParseNodeId(entry).Err? && ParseNodeId(entry).error.NodeIdNegative? <==>
      Strconv.IsDecimal(entry) && -TwoTo63 <= Strconv.SignedValue(entry) < 0
  {
    Strconv.AtoiMeaning(entry);
  }

  /** The decimal form of any n below 2^63 parses to n modulo 2^32: the
      identity below 2^32, and a different node id above it (4294967297 gives 1). */
  lemma ParseNodeIdOfDecimal(n: nat)
    requires n < TwoTo63
    ensures ParseNodeId(Strconv.Decimal(n)) == Ok(n % TwoTo32)
    ensures n < TwoTo32 ==> ParseNodeId(Strconv.Decimal(n)) == Ok(n)
  {
    Strconv.AtoiItoa(n);
    assert Strconv.Itoa(n) == Strconv.Decimal(n);
  }

  /** `GetNodeIds`: parse every entry in order, stopping at the first bad one. */
  method GetNodeIds(o: RestartOptions) returns (r: Result<seq<uint32>, NodeIdError>)
    ensures r.Ok? <==> AllNodeIds(o.hosts)
    ensures r.Ok? ==> |r.value| == |o.hosts|
    ensures r.Ok? ==> forall i | 0 <= i < |o.hosts| :: r.value[i] == ParseNodeId(o.hosts[i]).value
    ensures r.Err? ==>
      exists k :: FirstBadNodeId(o.hosts, k) && r.error == ParseNodeId(o.hosts[k]).error
  {
    var ids: seq<uint32> := [];
    for i := 0 to |o.hosts|
      invariant |ids| == i
      invariant forall j | 0 <= j < i :: ParseNodeId(o.hosts[j]).Ok? && ids[j] == ParseNodeId(o.hosts[j]).value
    {
      var id := Strconv.Atoi(o.hosts[i]);
      if id.Err? {
        assert FirstBadNodeId(o.hosts, i);
        return Err(NodeIdUnparsed(id.error));
      }
      if id.value < 0 {
        assert FirstBadNodeId(o.hosts, i);
        return Err(NodeIdNegative(id.value));
      }
      ids := ids + [ToUint32(id.value)];
    }
    return Ok(ids);
  }

  /** `GetNodeFQDNs`: the entries themselves, unless `url.Parse` rejects one. */
  method GetNodeFqdns(o: RestartOptions, urlParses: string -> bool) returns (r: Result<seq<string>, FqdnError>)
    ensures r.Ok? <==> AllFqdns(o.hosts, urlParses)
    ensures r.Ok? ==> r.value == o.hosts
    ensures r.Err? ==>
      exists k :: FirstBadFqdn(o.hosts, urlParses, k) && r.error == InvalidFqdn(o.hosts[k])
  {
    var hosts: seq<string> := [];
    for i := 0 to |o.hosts|
      invariant hosts == o.hosts[..i]
      invariant AllFqdns(hosts, urlParses)
    {
      if !urlParses(o.hosts[i]) {
        assert FirstBadFqdn(o.hosts, urlParses, i);
        return Err(InvalidFqdn(o.hosts[i]));
      }
      hosts := hosts + [o.hosts[i]];
    }
    assert hosts == o.hosts;
    return Ok(hosts);
  }

  /** The three checks on single fields that precede the `--hosts` check. */
  predicate FieldsValid(o: RestartOptions) {
    o.availabilityMode in AvailabilityModes && o.restartDuration >= 0 && o.restartRetryNumber >= 0
  }

  /** `Validate`: the guards in source order; the first failing one is reported.
      `--hosts` is refused only when it reads neither as node ids nor as FQDNs,
      so an empty list, or a mix that `url.Parse` accepts, passes. */
  method Validate(o: RestartOptions, urlParses: string -> bool, cmsError: Option<string>)
    returns (err: Option<ValidationError>)
    ensures o.availabilityMode !in AvailabilityModes ==>
      err == Some(UnsupportedAvailabilityMode(o.availabilityMode))
    ensures o.availabilityMode in AvailabilityModes && o.restartDuration < 0 ==>
      err == Some(InvalidRestartDuration(o.restartDuration))
    ensures o.availabilityMode in AvailabilityModes && o.restartDuration >= 0 && o.restartRetryNumber < 0 ==>
      err == Some(InvalidRestartRetryNumber(o.restartRetryNumber))
    ensures FieldsValid(o) ==>
      (err.Some? && err.value.UnparsableHosts? <==>
        !AllNodeIds(o.hosts) && !AllFqdns(o.hosts, urlParses))
    ensures err.Some? && err.value.UnparsableHosts? ==>
      (exists k :: FirstBadNodeId(o.hosts, k) && err.value.asNodeIds == ParseNodeId(o.hosts[k]).error) &&
      (exists k :: FirstBadFqdn(o.hosts, urlParses, k) && err.value.asFqdns == InvalidFqdn(o.hosts[k]))
    ensures FieldsValid(o) && (AllNodeIds(o.hosts) || AllFqdns(o.hosts, urlParses)) ==>
      err == if cmsError.Some? then Some(CmsInvalid(cmsError.value)) else None
    ensures err == None <==>
      FieldsValid(o) && (AllNodeIds(o.hosts) || AllFqdns(o.hosts, urlParses)) && cmsError == None
  {
    if o.availabilityMode !in AvailabilityModes {
      return Some(UnsupportedAvailabilityMode(o.availabilityMode));
    }
    if o.restartDuration < 0 {
      return Some(InvalidRestartDuration(o.restartDuration));
    }
    if o.restartRetryNumber < 0 {
      return Some(InvalidRestartRetryNumber(o.restartRetryNumber));
    }
    var fromIds := GetNodeIds(o);
    var fromFqdns := GetNodeFqdns(o, urlParses);
    if fromIds.Err? && fromFqdns.Err? {
      return Some(UnparsableHosts(fromIds.error, fromFqdns.error));
    }
    if cmsError.Some? {
      return Some(CmsInvalid(cmsError.value));
    }
    return None;
  }

  const NanosPerSecond: int := 1_000_000_000

  /** The largest whole number of seconds a Go `time.Duration` can hold. */
  const MaxDurationSeconds: int := 9_223_372_036

  /** A `durationpb.Duration`. */
  datatype Duration = Duration(seconds: int64, nanos: int32)

  /** `durationpb.New`: split nanoseconds into seconds and a remainder, both
      truncated toward zero as Go's `/` does. */
  function DurationOfNanos(ns: int64): (d: Duration)
    ensures d.seconds * NanosPerSecond + d.nanos == ns
    ensures -NanosPerSecond < d.nanos < NanosPerSecond
    ensures ns >= 0 ==> d.nanos >= 0
    ensures ns <= 0 ==> d.nanos <= 0
  {
    var secs: int := if ns >= 0 then ns / NanosPerSecond else -((-(ns as int)) / NanosPerSecond);
    Duration(secs, ns - secs * NanosPerSecond)
  }

  /** `time.Second * time.Duration(d) * time.Duration(n)`: two int64 products,
      each wrapping around. */
  function RestartDurationNanos(o: RestartOptions): int64 {
    Wrap64(Wrap64(NanosPerSecond * o.restartDuration) * o.restartRetryNumber)
  }

  /** `GetRestartDuration`: the maintenance window asked of the CMS. */
  function GetRestartDuration(o: RestartOptions): Duration {
    DurationOfNanos(RestartDurationNanos(o))
  }

  /** A whole number of seconds that fits a `time.Duration` converts back to
      exactly those seconds. */
  lemma DurationOfWholeSeconds(k: int)
    requires 0 <= k <= MaxDurationSeconds
    ensures 0 <= NanosPerSecond * k < TwoTo63
    ensures DurationOfNanos(NanosPerSecond * k) == Duration(k, 0)
  {
  }

  /** The two wrapped int64 products give the exact nanoseconds when the whole
      product fits (with no retries the first product may wrap, but times zero
      it still gives zero). */
  lemma ProductDoesNotWrap(d: int, n: int)
    requires d >= 0 && n >= 0 && 0 <= d * n <= MaxDurationSeconds
    ensures Wrap64(Wrap64(NanosPerSecond * d) * n) == NanosPerSecond * (d * n)
  {
    if n == 0 {
      assert Wrap64(NanosPerSecond * d) * n == 0;
    } else {
      assert d <= d * n;
      var first := NanosPerSecond * d;
      assert 0 <= first <= NanosPerSecond * MaxDurationSeconds < TwoTo63;
      assert Wrap64(first) == first;
      assert first * n == NanosPerSecond * (d * n) <= NanosPerSecond * MaxDurationSeconds;
    }
  }

  /** For validated options whose product fits a `time.Duration`, the window is
      exactly `restartDuration * restartRetryNumber` whole seconds. */
  lemma RestartDurationIsProduct(o: RestartOptions)
    requires o.restartDuration >= 0 && o.restartRetryNumber >= 0
    requires 0 <= o.restartDuration * o.restartRetryNumber <= MaxDurationSeconds
    ensures GetRestartDuration(o) == Duration(o.restartDuration * o.restartRetryNumber, 0)
  {
    var k := o.restartDuration * o.restartRetryNumber;
    ProductDoesNotWrap(o.restartDuration, o.restartRetryNumber);
    DurationOfWholeSeconds(k);
    var ns := NanosPerSecond * k;
    assert RestartDurationNanos(o) == ns;
    assert GetRestartDuration(o) == DurationOfNanos(ns);
  }

  /** A zero duration or a zero retry count asks for an empty window, whatever
      the other factor, because a wrapped product times zero is zero. */
  lemma RestartDurationZero(o: RestartOptions)
    requires o.restartDuration == 0 || o.restartRetryNumber == 0
    ensures GetRestartDuration(o) == Duration(0, 0)
  {
  }

  /** Wrapping agrees on values that are congruent modulo 2^64. */
  lemma Wrap64Congruent(x: int, y: int, m: int)
    requires x - y == m * TwoTo64
    ensures Wrap64(x) == Wrap64(y)
  {
    assert x + TwoTo63 == (y + TwoTo63) + m * TwoTo64;
  }

  /** Wrapping the first product changes nothing: the window's nanoseconds are
      the exact product `10^9 * d * n` wrapped once into int64, for all inputs. */
  lemma RestartDurationNanosIsWrappedProduct(o: RestartOptions)
    ensures RestartDurationNanos(o) == Wrap64(NanosPerSecond * o.restartDuration * o.restartRetryNumber)
  {
    var a := NanosPerSecond * o.restartDuration;
    var n := o.restartRetryNumber as int;
    var w := Wrap64(a);
    var q := (w - a) / TwoTo64;
    assert w - a == q * TwoTo64;
    assert w * n - a * n == (w - a) * n;
    assert (w - a) * n == (q * n) * TwoTo64;
    Wrap64Congruent(w * n, a * n, q * n);
  }

  /** A product in [2^63, 2^64) nanoseconds wraps to a negative window: either
      the seconds or the remaining nanoseconds are below zero (the seconds alone
      can be 0, for 18446744073 seconds). Products of 2^64 and more can wrap
      back to a positive window. */
  lemma RestartDurationWraps(o: RestartOptions)
    requires TwoTo63 <= NanosPerSecond * o.restartDuration * o.restartRetryNumber < TwoTo64
    ensures RestartDurationNanos(o) == NanosPerSecond * o.restartDuration * o.restartRetryNumber - TwoTo64
    ensures GetRestartDuration(o).seconds < 0 || GetRestartDuration(o).nanos < 0
  {
    RestartDurationNanosIsWrappedProduct(o);
    var x := NanosPerSecond * o.restartDuration * o.restartRetryNumber;
    Wrap64Congruent(x, x - TwoTo64, 1);
  }

  /** A wrapped product need not be negative: 18446744074 seconds once gives a
      window of 0.290448384 seconds. */
  lemma RestartDurationWrapsToPositive()
    ensures GetRestartDuration(RestartOptions("strong", [], [], [], 18_446_744_074, 1, false)) == Duration(0, 290_448_384)
  {
    var o := RestartOptions("strong", [], [], [], 18_446_744_074, 1, false);
    assert RestartDurationNanos(o) == 290_448_384;
  }

  /** ASCII letters upper-cased; everything else unchanged. */
  function UpperChar(c: char): char {
    if 'a' <= c <= 'z' then (c as int - 'a' as int + 'A' as int) as char else c
  }

  /** `strings.ToUpper`, restricted to ASCII case mapping. */
  function ToUpper(s: string): (u: string)
    ensures |u| == |s|
  {
    seq(|s|, i requires 0 <= i < |s| => UpperChar(s[i]))
  }

  /** The key `GetAvailabilityMode` looks up. */
  function AvailabilityModeKey(mode: string): (key: string)
    ensures key == "AVAILABILITY_MODE_" + ToUpper(mode)
  {
    ToUpper("availability_mode_" + mode)
  }

  /** `GetAvailabilityMode`: the enum value under the upper-cased key, and 0 (the
      unspecified mode) when the table has no such key. */
  function GetAvailabilityMode(o: RestartOptions, modeValues: map<string, int32>): (v: int32)
    ensures "AVAILABILITY_MODE_" + ToUpper(o.availabilityMode) in modeValues ==>
      v == modeValues["AVAILABILITY_MODE_" + ToUpper(o.availabilityMode)]
    ensures "AVAILABILITY_MODE_" + ToUpper(o.availabilityMode) !in modeValues ==> v == 0
  {
    var key := AvailabilityModeKey(o.availabilityMode);
    if key in modeValues then modeValues[key] else 0
  }

  /** The three accepted modes look up three distinct keys. */
  lemma AvailabilityModeKeys()
    ensures AvailabilityModeKey("strong") == "AVAILABILITY_MODE_STRONG"
    ensures AvailabilityModeKey("weak") == "AVAILABILITY_MODE_WEAK"
    ensures AvailabilityModeKey("force") == "AVAILABILITY_MODE_FORCE"
  {
  }

  /** The lookup ignores ASCII case: "Strong" selects what "strong" selects,
      although `Validate` accepts only the lower-case spelling. */
  lemma GetAvailabilityModeIgnoresCase(o: RestartOptions, mode: string, modeValues: map<string, int32>)
    requires ToUpper(mode) == ToUpper(o.availabilityMode)
    ensures GetAvailabilityMode(o.(availabilityMode := mode), modeValues) == GetAvailabilityMode(o, modeValues)
  {
  }
}
