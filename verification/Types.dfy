/** Shared vocabulary: statuses, identities, and the records of the IMPU store. */
module Types {

  datatype Option<+T> = None | Some(value: T)

  /** The outcome of one store access. */
  datatype Status = OK | NOT_FOUND | DATA_CONTENTION | ERROR

  datatype RegState = REGISTERED | UNREGISTERED | NOT_REGISTERED | REG_UNCHANGED | REG_UNKNOWN

  datatype Charging = Charging(ccfs: seq<string>, ecfs: seq<string>)

  /** A PublicIdentity element: its effective URI (absent when the Identity child is
      missing) and whether its barring indication is anything but "unbarred". */
  datatype PublicIdentity = PublicIdentity(identity: Option<string>, barred: bool)

  /** An IMSSubscription document, seen as the tree the handlers walk.  A document that
      does not parse is one without profiles. */
  datatype Xml = Xml(privateId: string, profiles: seq<seq<PublicIdentity>>)

  /** The two kinds of record kept under an IMPU. */
  datatype Record =
    | Default(associated: set<string>, impis: set<string>, state: RegState,
              charging: Charging, xml: Xml, expiry: int)
    | Associated(defaultImpu: string, expiry: int)

  /** The record kept under an IMPI. */
  datatype Mapping = Mapping(defaultImpus: seq<string>, expiry: int)

  function Elements(s: seq<string>): (r: set<string>)
    ensures forall x :: x in r <==> x in s
  {
    set x | x in s
  }

  /** How many elements of a sequence satisfy p. */
  function Count<T>(s: seq<T>, p: T -> bool): (n: nat) {
    if s == [] then 0 else Count(s[..|s| - 1], p) + if p(s[|s| - 1]) then 1 else 0
  }
}
