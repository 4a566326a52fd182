/** Listing events as the gossip layer sees them, and the order that decides replacement. */
module Events {

  const CHANNEL_KIND: nat := 30311

  datatype Option<+T> = None | Some(value: T)

  /** Publishers write `expiration` = `created_at` + this; a missing tag is read as the same value. */
  const EXPIRATION_OFFSET: nat := 600

  /**
   A signed event.  The id and the pubkey are the 256-bit numbers whose 64-digit hexadecimal forms
   the program compares as text, which is the same order.  `d`, `expirationTag` and `ended` are
   what the tag lookups give for this event.
   */
  datatype Event = Event(
    id: nat,
    kind: nat,
    pubkey: nat,
    createdAt: nat,
    d: Option<string>,
    expirationTag: Option<nat>,
    ended: bool)

  /** The replacement key `(kind, pubkey, d)`. */
  datatype Key = Key(kind: nat, pubkey: nat, channel: string)

  function KeyOf(e: Event): Key
    requires e.d.Some?
  {
    Key(e.kind, e.pubkey, e.d.value)
  }

  function Expiration(e: Event): nat {
    match e.expirationTag
    case Some(t) => t
    case None => e.createdAt + EXPIRATION_OFFSET
  }

  /** Last write wins: the later `createdAt`, and the larger id on a tie. */
  predicate Newer(a: Event, b: Event) {
    a.createdAt > b.createdAt || (a.createdAt == b.createdAt && a.id > b.id)
  }

  /** Subtraction on unsigned clocks stops at zero. */
  function SatSub(a: nat, b: nat): nat {
    if a >= b then a - b else 0
  }

  /** Equal ids mean equal events: the id is the hash of the signed content. */
  ghost predicate UniqueIds(s: set<Event>) {
    forall a, b :: a in s && b in s && a.id == b.id ==> a == b
  }

  lemma SubsetSize<T>(a: set<T>, b: set<T>)
    requires a <= b
    ensures |a| <= |b|
    ensures |a| == |b| ==> a == b
  {
    if a != b {
      var x :| x in b && x !in a;
      SubsetSize(a, b - {x});
    }
  }
}
