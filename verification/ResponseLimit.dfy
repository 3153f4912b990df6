/** The response cap of pkg/kubernetes/responselimit.go. */
module ResponseLimit {
  import opened Utf8
  import opened Wrappers

  datatype Error = Eof | TooLarge(limit: int) | Other(code: int)

  const MAX_ZERO_READS := 8
  const BACKEND_NOTICE: bytes := Ascii("\n[truncated: max_backend_response_bytes]\n")

  /** Any inner body. It holds `rest`, then reports `last` and keeps reporting it.
      It chooses freely how much a Read returns, whether `last` comes with the
      final bytes or after them, and it may return no bytes and no error: at most
      `patience` times in a row, and at least `lull` times between its last byte
      and its end. */
  class Body {
    var rest: bytes
    var ended: bool
    var idle: nat
    var asked: nat
    var closes: nat
    const last: Error
    const patience: nat
    const lull: nat

    ghost predicate Valid()
      reads this
    {
      idle <= patience && lull <= patience && !last.TooLarge? && (ended ==> rest == [])
    }

    constructor (data: bytes, last: Error, patience: nat, lull: nat)
      requires !last.TooLarge? && lull <= patience
      ensures Valid() && rest == data && this.last == last && this.patience == patience && this.lull == lull
      ensures closes == 0 && asked == 0
    {
      rest, ended, idle, asked, closes := data, false, 0, 0, 0;
      this.last, this.patience, this.lull := last, patience, lull;
    }

    method Read(max: nat) returns (got: bytes, err: Option<Error>)
      requires Valid() && max > 0
      modifies this`rest, this`ended, this`idle, this`asked
      ensures Valid() && asked == old(asked) + 1
      ensures |got| <= max && got + rest == old(rest)
      ensures err.Some? ==> err.value == last && rest == [] && ended
      ensures old(ended) ==> err.Some?
      ensures err.None? ==> !ended && idle == if got == [] then old(idle) + 1 else 0
      // the lull
      ensures err.Some? && got != [] ==> lull == 0
      ensures old(rest) == [] && !old(ended) && old(idle) < lull ==> err.None?
    {
      asked := asked + 1;
      if ended {
        return [], Some(last);
      }
      var n: int := *;
      var endsNow: bool := *;
      var most := if max < |rest| then max else |rest|;
      n := if n < 0 then 0 else if n <= most then n else most;
      if n == 0 && idle == patience {
        n, endsNow := if rest == [] then 0 else 1, rest == [];
      }
      got, rest := rest[..n], rest[n..];
      if rest == [] && endsNow && (if n > 0 then lull == 0 else idle >= lull) {
        err, ended, idle := Some(last), true, 0;
      } else {
        err, idle := None, if n == 0 then idle + 1 else 0;
      }
    }

    method Close()
      modifies this`closes
      ensures closes == old(closes) + 1
    {
      closes := closes + 1;
    }
  }

  class LimitedBody {
    const rc: Body
    const limit: int
    var read: int
    var err: Option<Error>
    var closed: bool
    ghost const whole: bytes  // everything the inner body held at the start
    ghost const before: nat   // how often it had been closed by then
    ghost var late: bool      // the cap was hit after Close

    /** What was handed out is a prefix of the whole; the inner body holds the
        remainder until an error is kept; it was closed once if this body is closed,
        and once more if the cap was hit by a Read behind Close. */
    ghost predicate Valid()
      reads this, rc
    {
      && rc.Valid() && 0 < limit && 0 <= read <= limit && read <= |whole|
      && (err.None? ==> rc.rest == whole[read..])
      && (err.Some? ==> err.value == TooLarge(limit) && closed && read == limit
                        && (|whole| > limit || rc.patience >= 8))
      && (rc.lull >= 8 && |whole| == limit && read == limit ==> err.Some?)
      && (late ==> err.Some?)
      && rc.closes == before + (if closed then 1 else 0) + (if late then 1 else 0)
    }

    constructor (rc: Body, limit: int)
      requires rc.Valid() && limit > 0
      ensures Valid() && this.rc == rc && this.limit == limit && whole == rc.rest
      ensures read == 0 && err == None && !closed && !late && before == rc.closes
    {
      this.rc, this.limit, read, err, closed := rc, limit, 0, None, false;
      whole, before, late := rc.rest, rc.closes, false;
    }

    method Read(max: nat) returns (got: bytes, e: Option<Error>)
      requires Valid()
      modifies this, rc
      ensures Valid() && old(read) <= read && got == whole[old(read)..read]
      ensures |got| <= max
      // the error of the inner body is passed on behind its last byte only
      ensures e.Some? && !e.value.TooLarge? ==> e.value == rc.last && read == |whole| && err == None
      ensures e.Some? && e.value.TooLarge? <==> (max > 0 && err.Some?) || old(err).Some?
      ensures e.Some? && e.value.TooLarge? ==> e == err
      // a second Close of the inner body needs a Read over the cap behind Close
      ensures late == (old(late) || (old(closed) && old(err).None? && err.Some?))
      ensures closed == (old(closed) || err.Some?)
      // no error means more to come, or an empty read of the inner body
      ensures e.None? && max > 0 ==> read < limit || read > old(read)
      ensures e.None? && max > 0 && read == old(read) ==> rc.idle == old(rc.idle) + 1
    {
      if err.Some? {
        return [], err;
      }
      if max == 0 {
        return [], None;
      }
      if read == limit {
        got := [];
        e := Peek();
        return;
      }
      var room := limit - read;
      got, e := rc.Read(if max > room then room else max);
      read := read + |got|;
      assert got == whole[old(read)..read];
      if read < limit || e.Some? {
        return;
      }
      var extra, peekErr := ReadByte();
      if extra > 0 || peekErr.None? {
        e := Fail();
        return;
      }
      if peekErr.value != Eof {
        e := peekErr;
      }
    }

    /** Behind the last allowed byte: an error is due in any case. */
    method Peek() returns (e: Option<Error>)
      requires Valid() && err.None? && read == limit
      modifies this`err, this`closed, this`late, rc
      ensures late == (err.Some? && old(closed))
      ensures err.None? ==> closed == old(closed)
      ensures Valid() && e.Some?
      ensures e.value.TooLarge? ==> e == err
      ensures !e.value.TooLarge? ==> e.value == rc.last && read == |whole| && err.None?
    {
      var extra, readErr := ReadByte();
      if extra > 0 || readErr.None? {
        e := Fail();
        return;
      }
      return readErr;
    }

    method ReadByte() returns (extra: nat, e: Option<Error>)
      requires rc.Valid()
      modifies rc`rest, rc`ended, rc`idle, rc`asked
      ensures rc.Valid() && rc.asked <= old(rc.asked) + 8
      ensures extra > 0 ==> old(rc.rest) != []
      ensures extra == 0 ==> rc.rest == old(rc.rest)
      ensures extra == 0 && e.Some? ==> rc.rest == [] && e.value == rc.last
      ensures extra == 0 && e.None? ==> rc.patience >= 8
      ensures old(rc.rest) == [] && !old(rc.ended) && old(rc.idle) + 8 <= rc.lull ==> extra == 0 && e.None?
    {
      var tries := 0;
      while tries < MAX_ZERO_READS
        invariant tries <= MAX_ZERO_READS
        invariant rc.Valid() && rc.rest == old(rc.rest) && rc.idle == old(rc.idle) + tries
        invariant rc.asked == old(rc.asked) + tries && (old(rc.ended) || !rc.ended)
      {
        var one;
        one, e := rc.Read(1);
        if one != [] || e.Some? {
          return |one|, e;
        }
        tries := tries + 1;
      }
      return 0, None;
    }

    method Fail() returns (e: Option<Error>)
      requires rc.Valid() && limit > 0 && read == limit <= |whole|
      requires rc.closes == before + if closed then 1 else 0
      requires err.None? && !late && (|whole| > limit || rc.patience >= 8)
      modifies this`err, this`closed, this`late, rc`closes
      ensures late == old(closed)
      ensures Valid() && e == err == Some(TooLarge(limit))
    {
      err := Some(TooLarge(limit));
      late := closed;
      closed := true;
      rc.Close();
      return err;
    }

    method Close()
      requires Valid()
      modifies this`closed, rc`closes
      ensures Valid() && closed && late == old(late) && rc.closes == before + if late then 2 else 1
    {
      if !closed {
        closed := true;
        rc.Close();
      }
    }
  }

  // -------------------------------------------------------------- whole readings

  /** io.ReadAll over the body itself. `sizes` are the buffer sizes it offers. */
  method ReadAllOf(body: Body, sizes: nat -> nat) returns (data: bytes, err: Option<Error>)
    requires body.Valid() && forall i :: sizes(i) > 0
    modifies body`rest, body`ended, body`idle, body`asked
    ensures body.Valid() && body.rest == []
    ensures (data, err) == Whole(old(body.rest), body.last)
  {
    data, err := [], None;
    var i := 0;
    while err.None?
      invariant body.Valid() && data + body.rest == old(body.rest)
      invariant err.Some? ==> err.value == body.last && body.rest == []
      decreases if err.None? then 1 else 0, |body.rest|, body.patience - body.idle
    {
      var got;
      got, err := body.Read(sizes(i));
      data := data + got;
      i := i + 1;
    }
    assert data == old(body.rest);
    err := if err.value == Eof then None else err;
  }

  /** io.ReadAll over a capped body. */
  method ReadAllLimited(body: LimitedBody, sizes: nat -> nat) returns (data: bytes, err: Option<Error>)
    requires body.Valid() && body.read == 0 && body.err.None? && forall i :: sizes(i) > 0
    modifies body, body.rc
    ensures body.Valid() && data == body.whole[..body.read]
    ensures err.Some? && err.value.TooLarge? ==> err == body.err
    ensures err.None? || !err.value.TooLarge? ==>
      body.err.None? && body.read == |body.whole|
      && err == (if body.rc.last == Eof then None else Some(body.rc.last))
    ensures body.closed == (old(body.closed) || body.err.Some?)
    ensures body.late == (old(body.closed) && body.err.Some?)
    ensures body.rc.patience < 8 ==> (body.late <==> old(body.closed) && |body.whole| > body.limit)
    ensures body.rc.lull >= 8 && |body.whole| == body.limit ==> err == Some(TooLarge(body.limit))
  {
    data, err := [], None;
    var i := 0;
    while err.None?
      invariant body.Valid() && data == body.whole[..body.read]
      invariant err.None? ==> body.err.None?
      invariant err.Some? && err.value.TooLarge? ==> err == body.err
      invariant err.Some? && !err.value.TooLarge? ==>
        body.err.None? && err.value == body.rc.last && body.read == |body.whole|
      invariant body.closed == (old(body.closed) || body.err.Some?)
      invariant body.late == (old(body.closed) && body.err.Some?)
      decreases if err.None? then 1 else 0, |body.whole| - body.read, body.rc.patience - body.rc.idle
    {
      var got;
      got, err := body.Read(sizes(i));
      data := data + got;
      i := i + 1;
    }
    err := if err.value == Eof then None else err;
  }

  /** Reading without a cap. */
  function Whole(data: bytes, last: Error): (bytes, Option<Error>) {
    (data, if last == Eof then None else Some(last))
  }

  /** Read everything, then compare lengths. */
  function WholeThenCompare(data: bytes, last: Error, limit: int): (bytes, Option<Error>) {
    if limit > 0 && |data| > limit then (data[..limit], Some(TooLarge(limit))) else Whole(data, last)
  }

  /** The capped reading is the whole reading with its length compared afterwards,
      for every choice of chunks, as long as the body does not stall eight times in
      a row. If it stalls more often the only difference is that a body of exactly
      the limit may be rejected, and is if it stalls eight times before its end: no
      error still means that nothing is missing. */
  method ReadLimited(body: Body, limit: int, sizes: nat -> nat) returns (data: bytes, err: Option<Error>)
    requires body.Valid() && forall i :: sizes(i) > 0
    modifies body
    ensures body.patience < 8 ==>
      (data, err) == WholeThenCompare(old(body.rest), body.last, limit)
    ensures err.None? ==> data == old(body.rest) && body.last == Eof && (limit > 0 ==> |data| <= limit)
    ensures (data, err) == WholeThenCompare(old(body.rest), body.last, limit)
         || (limit > 0 && |old(body.rest)| == limit && data == old(body.rest) && err == Some(TooLarge(limit)))
    ensures body.lull >= 8 && limit > 0 && |old(body.rest)| == limit ==> err == Some(TooLarge(limit))
    ensures body.closes == old(body.closes) + if err == Some(TooLarge(limit)) then 1 else 0
  {
    if limit <= 0 {
      data, err := ReadAllOf(body, sizes);
      return;
    }
    var limited := new LimitedBody(body, limit);
    data, err := ReadAllLimited(limited, sizes);
    ghost var whole := limited.whole;
    assert whole == old(body.rest) && whole[..|whole|] == whole;
    assert err == Some(TooLarge(limit)) <==> limited.err.Some?;
  }

  /** A capped body that is read to its end after Close: the inner body is closed a
      second time exactly when the reading says that it is too large. */
  method ReadAfterClose(body: Body, limit: int, sizes: nat -> nat) returns (data: bytes, err: Option<Error>)
    requires body.Valid() && limit > 0 && forall i :: sizes(i) > 0
    modifies body
    ensures body.patience < 8 ==>
      && (data, err) == WholeThenCompare(old(body.rest), body.last, limit)
      && body.closes == old(body.closes) + if |old(body.rest)| > limit then 2 else 1
    ensures body.closes == old(body.closes) + if err == Some(TooLarge(limit)) then 2 else 1
  {
    var limited := new LimitedBody(body, limit);
    limited.Close();
    data, err := ReadAllLimited(limited, sizes);
    ghost var whole := limited.whole;
    assert whole == old(body.rest) && whole[..|whole|] == whole;
    assert err == Some(TooLarge(limit)) <==> limited.err.Some?;
  }

  /** An over-cap body gives no bytes, and says that it was too large. */
  method ReadCapped(body: Body, limit: int, sizes: nat -> nat) returns (data: bytes, err: Option<Error>)
    requires body.Valid() && forall i :: sizes(i) > 0
    modifies body
    ensures err.Some? ==> data == []
    ensures err.None? ==> data == old(body.rest) && body.last == Eof && (limit > 0 ==> |data| <= limit)
    ensures body.patience < 8 ==> err == WholeThenCompare(old(body.rest), body.last, limit).1
    ensures err == WholeThenCompare(old(body.rest), body.last, limit).1
         || (limit > 0 && |old(body.rest)| == limit && err == Some(TooLarge(limit)))
    ensures body.lull >= 8 && limit > 0 && |old(body.rest)| == limit ==> err == Some(TooLarge(limit))
    ensures body.closes == old(body.closes) + if err == Some(TooLarge(limit)) then 1 else 0
  {
    data, err := ReadLimited(body, limit, sizes);
    if err.Some? {
      data := [];
    }
  }

  function AcceptTruncated(body: bytes, err: Option<Error>): (bytes, bool, Option<Error>) {
    match err
    case Some(TooLarge(_)) => (body + BACKEND_NOTICE, true, None)
    case Some(_) => ([], false, err)
    case None => (body, false, None)
  }

  /** A capped reading that keeps its prefix: the accepted text is the whole body
      exactly when nothing was cut, and a cut one is the first `limit` bytes and the notice. */
  lemma AcceptedReading(data: bytes, last: Error, limit: int)
    requires limit > 0 && !last.TooLarge?
    ensures var (kept, err) := WholeThenCompare(data, last, limit);
      var (text, truncated, outErr) := AcceptTruncated(kept, err);
      && (truncated <==> |data| > limit)
      && (truncated ==> outErr.None? && text == data[..limit] + Ascii("\n[truncated: max_backend_response_bytes]\n"))
      && (!truncated ==> (outErr.None? <==> last == Eof) && text == if last == Eof then data else [])
  {
  }
}
