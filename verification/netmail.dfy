/** The parts of Go's net/mail that the gateway relies on: addresses, the
    header map, messages, and the foreign parsers as an oracle record. */
module NetMail {
  import opened Wrappers
  import Text

  /** net/mail.Address: an optional display name and the bare address
      (local-part@domain). Comparisons in the gateway use only `address`. */
  datatype Address = Address(name: string, address: string)

  /** net/mail.Header: canonical key to the ordered list of its values. */
  type Header = map<string, seq<string>>

  /** A message body reader: absent (nil), readable to the end, or failing
      with an error while being read. */
  datatype Body = NoBody | Content(data: string) | Unreadable(cause: string)

  /** net/mail.Message. */
  datatype Message = Message(header: Header, body: Body)

  /** All values of one header key; a missing key has none. */
  function Values(h: Header, key: string): seq<string>
  {
    if key in h then h[key] else []
  }

  /** Header.Get: the first value of the key, or "" when there is none. */
  function Get(h: Header, key: string): (v: string)
    ensures |Values(h, key)| > 0 ==> v == Values(h, key)[0]
    ensures |Values(h, key)| == 0 ==> v == ""
  {
    if key in h && |h[key]| > 0 then h[key][0] else ""
  }

  /** The library functions the gateway calls but does not define:
      mail.ParseAddress, mail.ParseAddressList, Address.String and
      mail.ReadMessage. Every property is stated for all such functions, or
      for those satisfying `Faithful` below. */
  datatype MailParsers = MailParsers(
    parseAddress: string -> Option<Address>,
    parseAddressList: string -> Option<seq<Address>>,
    render: Address -> string,
    readMessage: string -> Option<Message>)

  /** Header.AddressList: parses the FIRST value of the key only; a missing
      or empty first value is an error (None), as is an unparseable one. */
  function AddressList(p: MailParsers, h: Header, key: string): (r: Option<seq<Address>>)
    ensures |Values(h, key)| == 0 ==> r.None?
    ensures r.Some? ==>
      && |Values(h, key)| > 0 && Values(h, key)[0] != ""
      && p.parseAddressList(Values(h, key)[0]) == r
    ensures |Values(h, key)| > 0 && Values(h, key)[0] != "" ==> r == p.parseAddressList(Values(h, key)[0])
  {
    var v := Get(h, key);
    if v == "" then None else p.parseAddressList(v)
  }

  /** Values after the first never matter to AddressList. */
  lemma AddressListIgnoresLaterValues(p: MailParsers, h: Header, key: string, later: seq<string>)
    requires |Values(h, key)| > 0
    ensures AddressList(p, h[key := [Values(h, key)[0]] + later], key) == AddressList(p, h, key)
  {
  }

  /** The bare addresses of a parsed list; a failed parse contributes none. */
  function BareAddresses(l: Option<seq<Address>>): (r: set<string>)
    ensures l.None? ==> r == {}
    ensures l.Some? ==> forall i :: 0 <= i < |l.value| ==> l.value[i].address in r
    ensures forall s :: s in r ==> l.Some? && exists i :: 0 <= i < |l.value| && l.value[i].address == s
  {
    if l.None? then {} else set a | a in l.value :: a.address
  }

  /** Address.String applied to every element, in order. */
  function Rendered(p: MailParsers, addrs: seq<Address>): (r: seq<string>)
    ensures |r| == |addrs|
    ensures forall i :: 0 <= i < |addrs| ==> r[i] == p.render(addrs[i])
  {
    seq(|addrs|, i requires 0 <= i < |addrs| => p.render(addrs[i]))
  }

  /** The rendered addresses joined by ", ", the list form the gateway writes. */
  function JoinRendered(p: MailParsers, addrs: seq<Address>): string
  {
    Text.Join(Rendered(p, addrs), ", ")
  }

  /** Two address-list texts joined into one list text. */
  function ListConcat(x: string, y: string): string
  {
    x + ", " + y
  }

  /** Address.String of the address parses back, as a list, to exactly
      that address. */
  predicate RoundTrips(p: MailParsers, a: Address)
  {
    p.parseAddressList(p.render(a)) == Some([a])
  }

  /** Every address of the list round-trips. */
  predicate AllRoundTrip(p: MailParsers, addrs: seq<Address>)
  {
    forall i :: 0 <= i < |addrs| ==> RoundTrips(p, addrs[i])
  }

  /** The facts about the library that the envelope properties need: the
      empty text is no address list, every address ParseAddress returns
      round-trips, and joining two parseable lists with ", " parses to their
      concatenation. Nothing is assumed about addresses the parser did not
      produce. */
  ghost predicate Faithful(p: MailParsers)
  {
    && p.parseAddressList("") == None
    && (forall s :: p.parseAddress(s).Some? ==> RoundTrips(p, p.parseAddress(s).value))
    && (forall x, y {:trigger p.parseAddressList(ListConcat(x, y))} ::
          p.parseAddressList(x).Some? && p.parseAddressList(y).Some? ==>
          p.parseAddressList(ListConcat(x, y)) == Some(p.parseAddressList(x).value + p.parseAddressList(y).value))
  }

  /** The one address of the witness library below. */
  const WitnessAddress := Address("", "a")

  /** A list text of the witness library: only 'a', ',' and ' ', with at
      least one 'a'. */
  predicate WitnessListText(s: string)
  {
    && (forall i :: 0 <= i < |s| ==> s[i] == 'a' || s[i] == ',' || s[i] == ' ')
    && 'a' in s
  }

  /** A small library that parses "a" to one address and reads a list as
      one address per 'a' it contains. */
  const WitnessParsers := MailParsers(
    s => if s == "a" then Some(WitnessAddress) else None,
    s => if WitnessListText(s) then Some(seq(multiset(s)['a'], _ => WitnessAddress)) else None,
    a => "a",
    s => None)

  /** The assumptions are consistent, and not only vacuously: the witness
      library meets them and its address round-trips, so the recipient
      properties apply to it. */
  lemma FaithfulIsConsistent()
    ensures Faithful(WitnessParsers)
    ensures AllRoundTrip(WitnessParsers, [WitnessAddress, WitnessAddress])
  {
    var p := WitnessParsers;
    assert multiset("a")['a'] == 1;
    assert WitnessListText("a") by { assert "a"[0] == 'a'; }
    assert seq(1, _ => WitnessAddress) == [WitnessAddress];
    forall x, y | p.parseAddressList(x).Some? && p.parseAddressList(y).Some?
      ensures p.parseAddressList(ListConcat(x, y)) == Some(p.parseAddressList(x).value + p.parseAddressList(y).value)
    {
      var xy := ListConcat(x, y);
      assert multiset(xy) == multiset(x) + multiset(", ") + multiset(y);
      assert multiset(", ")['a'] == 0;
      assert WitnessListText(xy) by {
        assert xy == x + ", " + y;
        assert 'a' in x;
        forall i | 0 <= i < |xy| ensures xy[i] == 'a' || xy[i] == ',' || xy[i] == ' ' {
          if i < |x| { assert xy[i] == x[i]; }
          else if i >= |x| + 2 { assert xy[i] == y[i - |x| - 2]; }
        }
      }
      var n, m := multiset(x)['a'], multiset(y)['a'];
      assert multiset(xy)['a'] == n + m;
      assert seq(n + m, _ => WitnessAddress) == seq(n, _ => WitnessAddress) + seq(m, _ => WitnessAddress);
    }
  }

  /** Rendering a concatenation joins the two rendered lists. */
  lemma JoinRenderedAppend(p: MailParsers, a: seq<Address>, b: seq<Address>)
    requires |a| > 0 && |b| > 0
    ensures JoinRendered(p, a + b) == ListConcat(JoinRendered(p, a), JoinRendered(p, b))
  {
    assert Rendered(p, a + b) == Rendered(p, a) + Rendered(p, b);
    Text.JoinAppend(Rendered(p, a), Rendered(p, b), ", ");
  }

  /** A one-address list renders as that address. */
  lemma JoinRenderedSingle(p: MailParsers, a: Address)
    ensures JoinRendered(p, [a]) == p.render(a)
  {
    assert Rendered(p, [a]) == [p.render(a)];
  }

  /** A non-empty list of round-tripping addresses, rendered and joined
      with ", ", parses back to exactly that list. */
  lemma {:induction false} JoinRenderedParses(p: MailParsers, addrs: seq<Address>)
    requires Faithful(p)
    requires |addrs| > 0 && AllRoundTrip(p, addrs)
    ensures p.parseAddressList(JoinRendered(p, addrs)) == Some(addrs)
  {
    JoinRenderedSingle(p, addrs[0]);
    assert RoundTrips(p, addrs[0]);
    if |addrs| > 1 {
      var rest := addrs[1..];
      assert AllRoundTrip(p, rest) by {
        forall i | 0 <= i < |rest| ensures RoundTrips(p, rest[i]) {
          assert rest[i] == addrs[i + 1];
        }
      }
      JoinRenderedParses(p, rest);
      assert addrs == [addrs[0]] + rest;
      JoinRenderedAppend(p, [addrs[0]], rest);
      assert p.parseAddressList(ListConcat(p.render(addrs[0]), JoinRendered(p, rest))) == Some([addrs[0]] + rest);
    } else {
      assert addrs == [addrs[0]];
    }
  }

  /** A non-empty rendered list of round-tripping addresses is a non-empty text. */
  lemma JoinRenderedNotEmpty(p: MailParsers, addrs: seq<Address>)
    requires Faithful(p)
    requires |addrs| > 0 && AllRoundTrip(p, addrs)
    ensures JoinRendered(p, addrs) != ""
  {
    JoinRenderedParses(p, addrs);
  }
}
