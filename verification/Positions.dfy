/** Positions of blocks in a file, and chains of them. */
module Positions {

  datatype Position = Position(major: nat, minor: nat)

  predicate Less(a: Position, b: Position) {
    a.major < b.major || (a.major == b.major && a.minor < b.minor)
  }

  predicate LessEq(a: Position, b: Position) {
    !Less(b, a)
  }

  /** The start of the next input block. */
  function NextMajor(p: Position): Position {
    Position(p.major + 1, 0)
  }

  function NextMinor(p: Position): Position {
    Position(p.major, p.minor + 1)
  }
}
