/**
  The reconnect logic of index.js (`HOSTS`, `hostIdx`, `connect` and
  `fallback`, index.js:148-208): each connection attempt uses the host
  `HOSTS[hostIdx % 3]`; every connection failure (a connect error or a
  disconnect, index.js:192-199) moves `hostIdx` on by one and waits
  `min(15000, 2000 * hostIdx)` milliseconds before the next attempt.
  `hostIdx` is never reset, so after the eighth failure every wait is
  15 seconds. Opening the socket, logging and the timer are not modelled:
  `Fallback` returns the delay it would schedule.
*/
module Connector {
  /** `HOSTS` (index.js:148-152). */
  const Hosts: seq<string> := ["https://api-v2.blaze.com", "https://api2.blaze.com", "https://api.blaze.com"]

  /** The longest wait between attempts, in milliseconds. */
  const MaxDelay: int := 15000

  /** The wait added per connection failure, in milliseconds. */
  const DelayStep: int := 2000

  /** The host of attempt number `n`, counting the first attempt as 0. */
  function HostAt(n: nat): (r: string)
    ensures r in Hosts
  {
    Hosts[n % |Hosts|]
  }

  /** `Math.min(15000, 2000 * hostIdx)`. */
  function Delay(n: nat): (r: int)
    ensures 0 <= r <= MaxDelay
    ensures r == MaxDelay || r == DelayStep * n
    ensures n >= 8 ==> r == MaxDelay
    ensures n < 8 ==> r == DelayStep * n
  {
    if DelayStep * n < MaxDelay then DelayStep * n else MaxDelay
  }

  /** The hosts repeat with period 3. */
  lemma HostPeriodic(n: nat)
    ensures HostAt(n + 3) == HostAt(n)
  {
    assert (n + 3) % 3 == n % 3;
  }

  /** Three consecutive attempts go to three different hosts, so they try
      every host. */
  lemma ThreeAttemptsCoverHosts(n: nat)
    ensures HostAt(n) != HostAt(n + 1) && HostAt(n + 1) != HostAt(n + 2) && HostAt(n) != HostAt(n + 2)
    ensures forall host :: host in Hosts ==> host in {HostAt(n), HostAt(n + 1), HostAt(n + 2)}
  {
    var r := n % 3;
    assert (n + 1) % 3 == (r + 1) % 3 && (n + 2) % 3 == (r + 2) % 3;
    assert Hosts[0] != Hosts[1] && Hosts[1] != Hosts[2] && Hosts[0] != Hosts[2];
  }

  /** Waits never shrink as connection failures accumulate. */
  lemma DelayMonotonic(a: nat, b: nat)
    requires a <= b
    ensures Delay(a) <= Delay(b)
  {
  }

  class Reconnector {
    /** `hostIdx`: the number of connection failures (connect errors and
        disconnects) so far. */
    var hostIdx: nat

    constructor()
      ensures hostIdx == 0
    {
      hostIdx := 0;
    }

    /** `connect()`: the host the next attempt uses. */
    method Connect() returns (host: string)
      ensures host == HostAt(hostIdx)
      ensures host in Hosts
    {
      host := HostAt(hostIdx);
    }

    /** `fallback()`: count the connection failure and return the wait
        before the next `connect()`. */
    method Fallback() returns (wait: int)
      modifies this
      ensures hostIdx == old(hostIdx) + 1
      ensures wait == Delay(hostIdx)
      ensures 0 < wait <= MaxDelay
    {
      hostIdx := hostIdx + 1;
      wait := Delay(hostIdx);
    }
  }
}
