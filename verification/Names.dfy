/** Stored entry names (archive/names.go). A name is the byte string of a Go string. */
module Names {
  import opened Bytes

  const MAX_ENTRY_NAME_LEN := 0xFFFF
  const SLASH: byte := 0x2F
  const DOT: byte := 0x2E
  const BACKSLASH: byte := 0x5C

  /** strings.Split(name, "/"). */
  function Elements(name: bytes): (es: seq<bytes>)
    ensures |es| >= 1
    ensures name == Join(es)
    ensures forall e :: e in es ==> SLASH !in e
  {
    if name == [] then [[]]
    else
      var rest := Elements(name[1..]);
      if name[0] == SLASH then [[]] + rest
      else
        assert name == [name[0]] + name[1..];
        [[name[0]] + rest[0]] + rest[1..]
  }

  /** strings.Join(es, "/"). */
  function Join(es: seq<bytes>): bytes
    requires |es| >= 1
  {
    if |es| == 1 then es[0] else es[0] + [SLASH] + Join(es[1..])
  }

  predicate PlainElement(e: bytes) { e != [] && e != [DOT] && e != [DOT, DOT] }

  predicate ValidEntryName(name: bytes)
  {
    && name != [] && |name| <= MAX_ENTRY_NAME_LEN
    && 0 !in name && BACKSLASH !in name
    && forall e :: e in Elements(name) ==> PlainElement(e)
  }

  /** Where an operating system lands after following path elements from depth `d`
      below the output directory, never going above it; None once it would. */
  function Walk(es: seq<bytes>, d: nat): Option<nat>
  {
    if es == [] then Some(d)
    else if es[0] == [DOT, DOT] then if d == 0 then None else Walk(es[1..], d - 1)
    else if es[0] == [] || es[0] == [DOT] then Walk(es[1..], d)
    else Walk(es[1..], d + 1)
  }

  /** A valid name descends one level per element, so it names something strictly inside
      the output directory. */
  lemma {:induction false} WalkDescends(es: seq<bytes>, d: nat)
    requires forall e :: e in es ==> PlainElement(e)
    ensures Walk(es, d) == Some(d + |es|)
  {
    if es == [] {
    } else {
      assert PlainElement(es[0]);
      WalkDescends(es[1..], d + 1);
    }
  }

  lemma ValidNameStaysInside(name: bytes)
    requires ValidEntryName(name)
    ensures Walk(Elements(name), 0) == Some(|Elements(name)|)
    ensures |Elements(name)| >= 1
  {
    WalkDescends(Elements(name), 0);
  }
}
