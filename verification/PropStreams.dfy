/** PropStream and PropWriteStream of src/fileloader.h: the byte cursor and the byte buffer of the stored formats. */
module PropStreams {
  import opened Bytes
  import opened Options

  const MAXIMAL_STRING: nat := 0xFFFF

  /** The next k unread bytes and what is left after them. */
  function Take(s: seq<Byte>, k: nat): Option<(seq<Byte>, seq<Byte>)> {
    if |s| < k then None else Some((s[..k], s[k..]))
  }

  /** The bytes writeString appends: nothing but a zero length for a string that is too long. */
  function StringBytes(text: seq<Byte>): seq<Byte> {
    if |text| > MAXIMAL_STRING then Little(0, 2) else Little(|text|, 2) + text
  }

  /** readString: the text and the unread bytes; a text that is cut short costs its length prefix. */
  function TakeString(s: seq<Byte>): (Option<seq<Byte>>, seq<Byte>) {
    if |s| < 2 then (None, s) else
      var size := FromLittle(s[..2]);
      if |s[2..]| < size then (None, s[2..]) else (Some(s[2..][..size]), s[2..][size..])
  }

  lemma TakeAppended(body: seq<Byte>, rest: seq<Byte>)
    ensures Take(body + rest, |body|) == Some((body, rest))
  {
    assert (body + rest)[..|body|] == body && (body + rest)[|body|..] == rest;
  }

  /** The written string is read back exactly when it fits the 16-bit length; a longer one comes back empty. */
  lemma StringRoundTrip(text: seq<Byte>, rest: seq<Byte>)
    ensures TakeString(StringBytes(text) + rest) == (Some(if |text| <= MAXIMAL_STRING then text else []), rest)
    ensures TakeString(StringBytes(text) + rest).0 == Some(text) <==> |text| <= MAXIMAL_STRING
  {
    Ranges();
    var kept := if |text| <= MAXIMAL_STRING then text else [];
    var s := StringBytes(text) + rest;
    UnsignedRoundTrip(|kept|, 2);
    assert s == Little(|kept|, 2) + (kept + rest);
    assert s[..2] == Little(|kept|, 2);
    assert s[2..][..|kept|] == kept && s[2..][|kept|..] == rest;
  }

  class PropWriteStream {
    var buffer: seq<Byte>

    constructor ()
      ensures buffer == []
    {
      buffer := [];
    }

    method Write(value: int, width: nat)
      modifies this
      ensures buffer == old(buffer) + Little(value, width)
    {
      buffer := buffer + Little(value, width);
    }

    method WriteString(text: seq<Byte>)
      modifies this
      ensures buffer == old(buffer) + StringBytes(text)
    {
      if |text| > MAXIMAL_STRING {
        Write(0, 2);
        return;
      }
      Write(|text|, 2);
      buffer := buffer + text;
    }
  }

  class PropStream {
    const data: seq<Byte>
    var p: nat

    ghost predicate Valid()
      reads this
    {
      p <= |data|
    }

    function Unread(): seq<Byte>
      requires Valid()
      reads this
    {
      data[p..]
    }

    constructor (bytes: seq<Byte>)
      ensures Valid() && Unread() == bytes
    {
      data, p := bytes, 0;
    }

    /** A failed read leaves the cursor where it is. */
    method Read(width: nat) returns (body: Option<seq<Byte>>)
      requires Valid()
      modifies this
      ensures Valid()
      ensures match Take(old(Unread()), width)
              case Some((taken, rest)) => body == Some(taken) && Unread() == rest
              case None => body == None && Unread() == old(Unread())
      ensures body.Some? <==> width <= |old(Unread())|
      ensures body.Some? ==> |body.value| == width && old(Unread()) == body.value + Unread()
    {
      if |data| - p < width {
        return None;
      }
      assert data[p..][..width] == data[p..p + width] && data[p..][width..] == data[p + width..];
      body := Some(data[p..p + width]);
      p := p + width;
    }

    method Skip(n: nat) returns (ok: bool)
      requires Valid()
      modifies this
      ensures Valid()
      ensures ok == (n <= |old(Unread())|)
      ensures Unread() == if ok then old(Unread())[n..] else old(Unread())
    {
      ok := n <= |data| - p;
      if ok {
        p := p + n;
      }
    }

    method ReadString() returns (text: Option<seq<Byte>>)
      requires Valid()
      modifies this
      ensures Valid()
      ensures (text, Unread()) == TakeString(old(Unread()))
      ensures text.Some? ==> old(Unread()) == Little(|text.value|, 2) + text.value + Unread()
      ensures text.None? ==> Unread() == if |old(Unread())| < 2 then old(Unread()) else old(Unread())[2..]
      ensures text.None? <==> |old(Unread())| < 2 || |old(Unread())| - 2 < FromLittle(old(Unread())[..2])
    {
      var length := Read(2);
      if length.None? {
        return None;
      }
      var size := FromLittle(length.value);
      FromLittleRoundTrip(length.value);
      if |data| - p < size {
        return None;
      }
      assert old(Unread())[2..] == data[p..];
      assert data[p..][..size] == data[p..p + size] && data[p..][size..] == data[p + size..];
      text := Some(data[p..p + size]);
      p := p + size;
    }
  }
}
