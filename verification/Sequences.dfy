/** Lists of pieces, and results that are built up piece by piece. */
module Sequences {
  import opened Option

  function Concat<T>(pieces: seq<seq<T>>): seq<T> {
    if pieces == [] then [] else pieces[0] + Concat(pieces[1..])
  }

  /** What was found so far in front of what the rest gives. */
  function Joined<T>(done: seq<T>, rest: Option<seq<T>>): Option<seq<T>> {
    match rest
    case None => None
    case Some(v) => Some(done + v)
  }

  lemma JoinedNothing<T>(rest: Option<seq<T>>)
    ensures Joined([], rest) == rest
  {
    match rest
    case None =>
    case Some(v) => assert [] + v == v;
  }
}
