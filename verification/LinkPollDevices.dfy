/** Several devices that poll from one address: at up to one poll a second together none is refused. */
module LinkPollDevices {
  import opened LinkPollHistory
  import opened Net

  const MS: nat := 1_000_000

  /** `device[k]` makes the poll at `times[k]`, and never polls twice within `period` milliseconds. The
      devices may start at any time, may skip polls, and need not poll on a whole millisecond. */
  ghost predicate Steady(times: seq<int>, device: seq<nat>, devices: nat, period: nat) {
    && |device| == |times|
    && (forall k :: 0 <= k < |device| ==> device[k] < devices)
    && (forall k :: 0 < k < |times| ==> times[k] - times[k - 1] < MAX_IDLE)
    && (forall i, k :: 0 <= i < k < |times| ==> times[i] <= times[k])
    && (forall i, k :: 0 <= i < k < |times| && device[i] == device[k] ==> times[k] - times[i] >= period * MS)
  }

  /** The polls of one device among those from `i` up to `j`. */
  function CountOf(device: seq<nat>, d: nat, i: nat, j: nat): nat
    requires i <= j <= |device|
  {
    if i == j then 0 else CountOf(device, d, i, j - 1) + (if device[j - 1] == d then 1 else 0)
  }

  /** The polls of the first `devices` devices. */
  function CountBelow(device: seq<nat>, devices: nat, i: nat, j: nat): nat
    requires i <= j <= |device|
  {
    if devices == 0 then 0 else CountBelow(device, devices - 1, i, j) + CountOf(device, devices - 1, i, j)
  }

  lemma {:induction false} OneMorePoll(device: seq<nat>, devices: nat, i: nat, j: nat)
    requires i < j <= |device|
    ensures CountBelow(device, devices, i, j) ==
      CountBelow(device, devices, i, j - 1) + (if device[j - 1] < devices then 1 else 0)
  {
    if devices > 0 {
      OneMorePoll(device, devices - 1, i, j);
    }
  }

  lemma {:induction false} NoPolls(device: seq<nat>, devices: nat, i: nat)
    requires i <= |device|
    ensures CountBelow(device, devices, i, i) == 0
  {
    if devices > 0 {
      NoPolls(device, devices - 1, i);
    }
  }

  lemma {:induction false} AllAreCounted(device: seq<nat>, devices: nat, i: nat, j: nat)
    requires i <= j <= |device| && forall k :: 0 <= k < |device| ==> device[k] < devices
    ensures CountBelow(device, devices, i, j) == j - i
  {
    if i == j {
      NoPolls(device, devices, i);
    } else {
      AllAreCounted(device, devices, i, j - 1);
      OneMorePoll(device, devices, i, j);
    }
  }

  /** The last of a device's polls lies a period after each one before it. */
  lemma {:induction false} LastPoll(times: seq<int>, device: seq<nat>, devices: nat, period: nat, d: nat, i: nat, j: nat)
    returns (l: nat)
    requires Steady(times, device, devices, period)
    requires i < j <= |times| && CountOf(device, d, i, j) > 0
    ensures i <= l < j && device[l] == d
    ensures times[l] - times[i] >= (CountOf(device, d, i, j) - 1) * (period * MS)
  {
    var before := CountOf(device, d, i, j - 1);
    if device[j - 1] != d {
      l := LastPoll(times, device, devices, period, d, i, j - 1);
    } else {
      l := j - 1;
      if before > 0 {
        var earlier := LastPoll(times, device, devices, period, d, i, j - 1);
        NextMultiple(before, period * MS);
      } else {
        assert times[i] <= times[l];
      }
    }
  }

  lemma {:induction false} NextMultiple(n: nat, p: nat)
    requires n > 0
    ensures n * p == (n - 1) * p + p
  {
  }

  lemma {:induction false} DeviceFits(times: seq<int>, device: seq<nat>, devices: nat, period: nat, d: nat, i: nat, k: nat)
    requires Steady(times, device, devices, period) && i < k < |times|
    ensures (CountOf(device, d, i, k + 1) - 1) * (period * MS) <= times[k] - times[i]
  {
    var count := CountOf(device, d, i, k + 1);
    assert times[i] <= times[k];
    if count > 0 {
      var l := LastPoll(times, device, devices, period, d, i, k + 1);
      assert times[l] <= times[k];
    } else {
      assert (count - 1) * (period * MS) == -(period * MS);
    }
  }

  lemma {:induction false} DevicesFit(times: seq<int>, device: seq<nat>, devices: nat, period: nat, n: nat, i: nat, k: nat)
    requires Steady(times, device, devices, period) && i < k < |times|
    ensures (CountBelow(device, n, i, k + 1) - n) * (period * MS) <= n * (times[k] - times[i])
  {
    if n > 0 {
      DevicesFit(times, device, devices, period, n - 1, i, k);
      DeviceFits(times, device, devices, period, n - 1, i, k);
      Distribute(CountBelow(device, n - 1, i, k + 1) - (n - 1), CountOf(device, n - 1, i, k + 1) - 1, period * MS);
      Distribute(n - 1, 1, times[k] - times[i]);
    }
  }

  lemma {:induction false} Distribute(a: int, b: int, c: int)
    ensures (a + b) * c == a * c + b * c
  {
  }

  /** From the sum over the devices to the rate: each device takes `cost` milliseconds for a poll. */
  lemma {:induction false} FitsRate(polls: nat, devices: nat, period: nat, cost: nat, span: int)
    requires devices >= 1 && devices * cost <= period && span >= 0
    requires (polls - devices) * (period * MS) <= devices * span
    ensures polls <= devices || (polls - devices) * (cost * MS) <= span
  {
    if polls > devices {
      var over := polls - devices;
      Scale(devices, cost, period);
      Mono(devices * (cost * MS), period * MS, over);
      Swap(over, devices, cost * MS);
      Cancel(devices, over * (cost * MS), span);
    }
  }

  lemma {:induction false} Scale(devices: nat, cost: nat, period: nat)
    requires devices * cost <= period
    ensures devices * (cost * MS) <= period * MS
  {
    Swap(MS, devices, cost);
  }

  lemma {:induction false} Mono(a: int, b: int, n: nat)
    requires a <= b
    ensures n * a <= n * b
  {
  }

  lemma {:induction false} Swap(a: int, b: int, c: int)
    ensures a * (b * c) == b * (a * c)
  {
  }

  lemma {:induction false} Cancel(n: nat, a: int, b: int)
    requires n > 0 && n * a <= n * b
    ensures a <= b
  {
    if b < a {
      Mono(b + 1, a, n);
      Distribute(b, 1, n);
      assert false;
    }
  }

  lemma {:induction false} SteadyPolls(times: seq<int>, device: seq<nat>, devices: nat, period: nat, cost: nat, i: nat, k: nat)
    requires Steady(times, device, devices, period) && devices >= 1 && devices * cost <= period && i < k < |times|
    ensures k - i + 1 <= devices || (k - i + 1 - devices) * (cost * MS) <= times[k] - times[i]
  {
    AllAreCounted(device, devices, i, k + 1);
    DevicesFit(times, device, devices, period, devices, i, k);
    assert times[i] <= times[k];
    FitsRate(k + 1 - i, devices, period, cost, times[k] - times[i]);
  }

  /** On any clock: fewer devices than the burst has cells, with a period of 1001 ms for each of them. */
  lemma {:induction false} SteadyDevicesStayWithinRate(times: seq<int>, device: seq<nat>, devices: nat, period: nat)
    requires Steady(times, device, devices, period) && 1 <= devices < 30 && devices * 1_001 <= period
    ensures WithinRate(times)
  {
    forall i, k | 0 <= i && i + 30 <= k < |times|
      ensures (1_000 * (k - i + 1) + (k - i)) * 1_000_000 <= 30_000 * 1_000_000 + (times[k] - times[i])
    {
      SteadyPolls(times, device, devices, period, 1_001, i, k);
    }
  }

  /** In every run, on any clock, the devices of an address are never refused, however their polls
      interleave, while the address is not evicted. */
  lemma {:induction false} SteadyDevicesAreNeverRefused(es: seq<Poll>, ip: IpAddr, device: seq<nat>, devices: nat, period: nat)
    requires Valid(es) && NeverEvicted(es, ip)
    requires Steady(PollTimes(es, ip), device, devices, period) && 1 <= devices < 30 && devices * 1_001 <= period
    ensures AdmittedTimes(es, ip) == PollTimes(es, ip)
  {
    SteadyDevicesStayWithinRate(PollTimes(es, ip), device, devices, period);
    WithinRateIsNeverRefused(es, ip);
  }

  /** On a whole-millisecond clock also as many devices as cells, at one poll a second together. */
  lemma {:induction false} SteadyDevicesOnWholeClock(es: seq<Poll>, ip: IpAddr, device: seq<nat>, devices: nat, period: nat)
    requires Valid(es) && NeverEvicted(es, ip) && WholeClock(PollTimes(es, ip), 0)
    requires Steady(PollTimes(es, ip), device, devices, period) && 1 <= devices <= 30 && devices * 1_000 <= period
    ensures AdmittedTimes(es, ip) == PollTimes(es, ip)
  {
    var times := PollTimes(es, ip);
    forall k, i | 0 <= k < |times| && 0 <= i < |times[..k]|
      ensures 1_000 * (k - i + 1) * 1_000_000 <= 30_000 * 1_000_000 + (times[k] - times[..k][i])
    {
      SteadyPolls(times, device, devices, period, 1_000, i, k);
    }
    PlainRateOnWholeClock(es, ip);
  }
}
