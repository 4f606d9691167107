/** Addresses of articles, as the miner orders them.
  *
  * An article's address carries a number that grows with the posting time.
  * When a listing runs out, the miner makes up a stub address from the last
  * real one; the stub counts as half a unit older.  Numbers are doubled here
  * so that they stay integers.
  */
module Urls {

  datatype Url =
    | Post(num: nat, tag: string)
    | Stub(num: nat)
    | Unnamed  // an address no number can be read from

  /** An address as it appears in the board's listing. */
  type Href = u: Url | u.Post? witness Post(0, "")

  /** Twice the number that orders addresses; reading it from an unnamed address raises an error. */
  function Num(u: Url): int
    requires !u.Unnamed?
  {
    match u
    case Post(n, _) => 2 * n
    case Stub(n) => 2 * n - 1
  }

  /** The stub made from the last address handed out (None: there was none). */
  function StubOf(prev: Url): Url {
    match prev
    case Post(n, _) => Stub(n)
    case Stub(n) => if n >= 1_000_000_000 then Stub(n / 1_000_000_000) else Unnamed
    case Unnamed => Unnamed
  }

  lemma StubIsOlder(prev: Url)
    requires !StubOf(prev).Unnamed?
    ensures !prev.Unnamed?
    ensures Num(StubOf(prev)) < Num(prev)
    ensures prev.Post? ==> Num(StubOf(prev)) == Num(prev) - 1
  {
    if prev.Stub? {
      assert prev.num / 1_000_000_000 <= prev.num / 2;
    }
  }
}
