/** The SASL PLAIN message of section 2 of RFC 4616:
    [authzid] NUL authcid NUL passwd. */
module SaslPlain {
  import opened Wrappers
  import Text

  const Nul: char := '\0'

  /** The three fields of a PLAIN message. */
  datatype PlainMessage = PlainMessage(authzid: string, authcid: string, passwd: string)

  /** A field that can be carried: it contains no NUL. */
  predicate Carriable(m: PlainMessage)
  {
    Nul !in m.authzid && Nul !in m.authcid && Nul !in m.passwd
  }

  /** The client side: the fields joined by NUL. */
  function EncodePlain(m: PlainMessage): string
  {
    m.authzid + [Nul] + m.authcid + [Nul] + m.passwd
  }

  /** The server side: split at every NUL; anything but exactly three parts
      is malformed. */
  function DecodePlain(response: string): (r: Option<PlainMessage>)
    ensures r.Some? ==> Carriable(r.value) && EncodePlain(r.value) == response
  {
    var parts := Text.Split(response, Nul);
    if |parts| != 3 then None
    else
      JoinThree(parts);
      Some(PlainMessage(parts[0], parts[1], parts[2]))
  }

  /** Decoding recovers every carriable message the client can send. */
  lemma DecodeEncodePlain(m: PlainMessage)
    requires Carriable(m)
    ensures DecodePlain(EncodePlain(m)) == Some(m)
  {
    var parts := [m.authzid, m.authcid, m.passwd];
    Text.SplitJoin(parts, Nul);
    JoinThree(parts);
  }

  /** Three parts joined by NUL. */
  lemma JoinThree(parts: seq<string>)
    requires |parts| == 3
    ensures Text.Join(parts, [Nul]) == parts[0] + [Nul] + parts[1] + [Nul] + parts[2]
  {
    assert parts[1..][1..] == [parts[2]];
    assert Text.Join(parts[1..], [Nul]) == parts[1] + [Nul] + parts[2];
    assert Text.Join(parts, [Nul]) == parts[0] + [Nul] + (parts[1] + [Nul] + parts[2]);
  }
}
