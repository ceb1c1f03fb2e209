/** Byte streams as callers see them. */
module Streams {
  import opened Bytes

  datatype Status = More | Eof | Failed

  /** An io.Reader over `rest` that may return any non-empty part of it at each call, and
      that ends with EOF or, when broken, with an error, along with the last bytes or after. */
  class Reader {
    var rest: bytes
    const broken: bool

    constructor (data: bytes, broken: bool)
      ensures rest == data && this.broken == broken
    {
      this.rest, this.broken := data, broken;
    }

    method Read(limit: nat) returns (data: bytes, status: Status)
      requires limit > 0
      modifies this
      ensures old(rest) == data + rest && |data| <= limit
      ensures data == [] ==> status != More
      ensures status != More ==> rest == [] && status == (if broken then Failed else Eof)
    {
      var k: nat :| k <= limit && k <= |rest| && (rest != [] ==> 0 < k);
      data := rest[..k];
      rest := rest[k..];
      var early: bool :| true;
      status := if rest == [] && (early || k == 0) then (if broken then Failed else Eof) else More;
    }
  }
}
