/** What an upstream handler does with the response it is given. */
module Upstreams {
  import opened Basics
  import opened Headers

  /** A line with a 1xx status, and the fields it was sent with. */
  datatype Interim = Interim(status: int, header: Header)

  /**
   One response: its interim lines; the fields as they are when the final line is due,
   including what an interim line left behind; an explicit status if there is one; its
   writes; and whether it ends in an error.
   */
  datatype Upstream = Upstream(early: seq<Interim>, header: Header, status: Option<int>, writes: seq<Bytes>,
                               failed: bool)

  /** 101 ends the response, so it is not among the interim statuses. */
  predicate InterimStatus(status: int) {
    100 <= status < 200 && status != 101
  }

  predicate Proper(up: Upstream) {
    && (up.status.Some? ==> up.status.value >= 200)
    && forall i :: 0 <= i < |up.early| ==> InterimStatus(up.early[i].status)
  }

  function Codes(early: seq<Interim>): seq<int> {
    seq(|early|, i requires 0 <= i < |early| => early[i].status)
  }

  function Concat(writes: seq<Bytes>): Bytes {
    if writes == [] then [] else Concat(writes[..|writes| - 1]) + writes[|writes| - 1]
  }

  predicate Begun(up: Upstream) {
    up.early != [] || up.status.Some? || up.writes != []
  }

  /** The status the capturing writer ends up with: a write after an interim line does not change it. */
  function FinalStatus(up: Upstream): int {
    if up.status.Some? then up.status.value
    else if up.early != [] then up.early[|up.early| - 1].status
    else 200
  }

  /** The capturing writer has decided on a final line. */
  predicate Decided(up: Upstream) {
    up.status.Some? || (up.early == [] && up.writes != [])
  }

  /** The final status line the client receives. */
  function Wire(up: Upstream): seq<int> {
    if up.status.Some? then [up.status.value] else if up.writes != [] then [200] else []
  }

  /** All status lines the client receives when the response passes through. */
  function Lines(up: Upstream): seq<int> {
    Codes(up.early) + Wire(up)
  }

  /** The response as far as its first i writes. */
  function Upto(up: Upstream, i: nat): Upstream
    requires i <= |up.writes|
  {
    up.(writes := up.writes[..i])
  }
}
