// The retry rule of `get` (daledou/run.py:120-133), stated on the bodies the
// transport hands back: the method that performs the requests is
// Runtime.Runtime.Get.
module Retry {
  import opened Text

  /** The text the game server puts in a page when it asks the client to retry. */
  const BusyMarker: string := "系统繁忙"

  /** `for _ in range(3)`: the number of requests one `get` may send. */
  const MaxAttempts: nat := 3

  const BaseUrl: string := "https://dld.qzapp.z.qq.com/qpet/cgi-bin/phonepk?"

  predicate Busy(body: string) {
    Contains(body, BusyMarker)
  }

  function Url(params: string): string {
    BaseUrl + params
  }

  /** The bodies the transport gives to requests `from`, `from + 1`, ... of the process,
      as many as one `get` can consume. */
  function Replies(server: nat -> string, from: nat): (r: seq<string>)
    ensures |r| == MaxAttempts
    ensures forall k | 0 <= k < MaxAttempts :: r[k] == server(from + k)
  {
    [server(from), server(from + 1), server(from + 2)]
  }

  /** How many requests `get` sends when the transport answers with `replies` in turn:
      it stops at the first body without the busy marker, or when the replies run out. */
  function Attempts(replies: seq<string>): (n: nat)
    requires |replies| > 0
    ensures 1 <= n <= |replies|
    ensures forall k | 0 <= k < n - 1 :: Busy(replies[k])
    ensures n < |replies| ==> !Busy(replies[n - 1])
  {
    if |replies| == 1 || !Busy(replies[0]) then 1 else 1 + Attempts(replies[1..])
  }

  /** The number of busy bodies before the first one that is not busy. */
  function LeadingBusy(replies: seq<string>): nat {
    if replies == [] || !Busy(replies[0]) then 0 else 1 + LeadingBusy(replies[1..])
  }

  function Min(a: nat, b: nat): nat {
    if a <= b then a else b
  }

  /** The count of requests is one more than the count of leading busy bodies, capped
      at the number of replies `get` may consume. */
  lemma {:induction false} AttemptsIsLeadingBusyCapped(replies: seq<string>)
    requires |replies| > 0
    ensures Attempts(replies) == Min(|replies|, 1 + LeadingBusy(replies))
  {
    if |replies| > 1 && Busy(replies[0]) {
      AttemptsIsLeadingBusyCapped(replies[1..]);
    }
  }

  /** The three facts in Attempts' contract pin the count down: any count with them is it. */
  lemma AttemptsUnique(replies: seq<string>, n: nat)
    requires 1 <= n <= |replies|
    requires forall k | 0 <= k < n - 1 :: Busy(replies[k])
    requires n < |replies| ==> !Busy(replies[n - 1])
    ensures n == Attempts(replies)
  {
  }
}
