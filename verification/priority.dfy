/** The three priority labels a task may carry, and the rank the client sorts them by. */
module Priorities {
  import opened Wrappers

  datatype Priority = High | Medium | Low

  /** The label stored in the `priority` column and shown to the user. */
  function Label(p: Priority): string {
    match p
    case High => "\U{1F6A8} High Priority"
    case Medium => "\U{1F6A7} Medium Priority"
    case Low => "\U{1F4D7} Low/New Feature"
  }

  /** Recognises a priority label; any other string, however close, is rejected. */
  function Parse(s: string): (r: Option<Priority>)
    ensures r.Some? ==> Label(r.value) == s
    ensures r.None? <==> forall p: Priority :: Label(p) != s
  {
    if s == Label(High) then Some(High)
    else if s == Label(Medium) then Some(Medium)
    else if s == Label(Low) then Some(Low)
    else None
  }

  /** The client's sort rank: High first, then Medium, then Low. */
  function Rank(p: Priority): int {
    match p
    case High => 1
    case Medium => 2
    case Low => 3
  }

  /** Parsing a label gives back the priority it labels, so the three labels are distinct. */
  lemma ParseLabel(p: Priority)
    ensures Parse(Label(p)) == Some(p)
  {
  }

  /** Rank is a strict order on the three priorities: High < Medium < Low, and no two share a rank. */
  lemma RankOrder(p: Priority, q: Priority)
    ensures Rank(High) < Rank(Medium) < Rank(Low)
    ensures Rank(p) == Rank(q) <==> p == q
  {
  }
}
