/** The fixed Needleman-Wunsch costs and the rules by which a cell picks one of
    its candidate costs. Costs are minimised: a match is rewarded with a
    negative cost. */
module Costs {
  import opened Cells

  const MATCH: int := -3
  const INDEL: int := 5
  const SUB: int := 1

  /** The cost a diagonal step adds: a reward for equal letters, a penalty otherwise. */
  function MatchSubPenalty(isMatch: bool): int {
    if isMatch then MATCH else SUB
  }

  function Min3(x: int, y: int, z: int): (m: int)
    ensures m <= x && m <= y && m <= z
    ensures m == x || m == y || m == z
  {
    if x <= y && x <= z then x else if y <= z then y else z
  }

  /** The operation a cell takes and the value it then stores. */
  datatype Choice = Choice(op: Op, value: int)

  /** Among the costs of the three candidates, the cost of `op`. */
  function CandidateCost(op: Op, ins: int, del: int, ms: int): int {
    match op
    case Insert => ins
    case Delete => del
    case MatchSub => ms
  }

  /** The three-way choice of an ordinary cell: the cheapest candidate, ties
      going to insert before delete and to delete before match_sub. */
  function Choose3(ins: int, del: int, ms: int): (r: Choice)
    ensures r.value == CandidateCost(r.op, ins, del, ms)
    ensures r.value == Min3(ins, del, ms)
    ensures r.op == Insert <==> ins <= del && ins <= ms
    ensures r.op == Delete <==> del < ins && del <= ms
    ensures r.op == MatchSub <==> ms < ins && ms < del
  {
    if ins <= del && ins <= ms then Choice(Insert, ins)
    else if del <= ins && del <= ms then Choice(Delete, del)
    else Choice(MatchSub, ms)
  }

  /** The choice on the left edge of the band: insert is not a candidate, and
      delete is taken only when it is strictly cheaper. */
  function ChooseLeftEdge(del: int, ms: int): (r: Choice)
    ensures r.op != Insert
    ensures r.value == CandidateCost(r.op, 0, del, ms)
    ensures r.value <= del && r.value <= ms
    ensures r.op == Delete <==> del < ms
  {
    if del < ms then Choice(Delete, del) else Choice(MatchSub, ms)
  }

  /** The choice on the upper edge of the band: delete is not a candidate, and
      insert wins ties. */
  function ChooseUpperEdge(ins: int, ms: int): (r: Choice)
    ensures r.op != Delete
    ensures r.value == CandidateCost(r.op, ins, 0, ms)
    ensures r.value <= ins && r.value <= ms
    ensures r.op == Insert <==> ins <= ms
  {
    if ins <= ms then Choice(Insert, ins) else Choice(MatchSub, ms)
  }
}
