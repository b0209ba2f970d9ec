/** The message rewriting done inside DATA before relaying: the fallback
    message for unparseable input, and the reconciliation of the envelope
    with the destination fields (section 3.6.3 of RFC 5322) and the
    originator field (section 3.6.2 of RFC 5322). */
module Reconcile {
  import opened Wrappers
  import opened NetMail
  import Wire

  const NoSubject := "(no subject)"
  const PlainTextUtf8 := "text/plain; charset=utf-8"

  /** The two headers agree on every key outside `keys`. */
  ghost predicate AgreeOutside(h: Header, h': Header, keys: set<string>)
  {
    forall k :: k !in keys ==> (k in h' <==> k in h) && (k in h ==> h'[k] == h[k])
  }

  /** Some address of the field's first value has bare address `a`. */
  predicate ListedIn(p: MailParsers, h: Header, key: string, a: string)
  {
    var l := AddressList(p, h, key);
    l.Some? && exists i :: 0 <= i < |l.value| && l.value[i].address == a
  }

  /** The destination fields of section 3.6.3 of RFC 5322. */
  const DestinationFields := {"To", "Cc", "Bcc"}

  /** The bare addresses the destination fields To, Cc and Bcc already name:
      exactly those listed in one of them. */
  function Present(p: MailParsers, h: Header): (r: set<string>)
    ensures forall key, a :: key in DestinationFields && ListedIn(p, h, key, a) ==> a in r
    ensures forall a :: a in r ==> exists key :: key in DestinationFields && ListedIn(p, h, key, a)
  {
    BareAddresses(AddressList(p, h, "To"))
      + BareAddresses(AddressList(p, h, "Cc"))
      + BareAddresses(AddressList(p, h, "Bcc"))
  }

  /** The envelope recipients whose bare address is not present, in RCPT
      order and with repetitions kept. */
  function Missing(rcpts: seq<Address>, present: set<string>): (r: seq<Address>)
    ensures |r| <= |rcpts|
    ensures forall i :: 0 <= i < |r| ==> r[i] in rcpts && r[i].address !in present
    ensures forall a: Address :: a.address !in present ==> multiset(r)[a] == multiset(rcpts)[a]
  {
    if |rcpts| == 0 then []
    else
      var rest := Missing(rcpts[1..], present);
      assert rcpts == [rcpts[0]] + rcpts[1..];
      assert multiset(rcpts) == multiset{rcpts[0]} + multiset(rcpts[1..]);
      if rcpts[0].address in present then rest
      else
        assert multiset([rcpts[0]] + rest) == multiset{rcpts[0]} + multiset(rest);
        [rcpts[0]] + rest
  }

  /** The missing recipients are envelope recipients, so they round-trip
      when the envelope does. */
  lemma MissingRoundTrips(p: MailParsers, rcpts: seq<Address>, present: set<string>)
    requires AllRoundTrip(p, rcpts)
    ensures AllRoundTrip(p, Missing(rcpts, present))
  {
    var missing := Missing(rcpts, present);
    forall i | 0 <= i < |missing| ensures RoundTrips(p, missing[i]) {
      var j :| 0 <= j < |rcpts| && rcpts[j] == missing[i];
    }
  }

  /** Missing keeps RCPT order: it distributes over concatenation. */
  lemma {:induction false} MissingAppend(a: seq<Address>, b: seq<Address>, present: set<string>)
    ensures Missing(a + b, present) == Missing(a, present) + Missing(b, present)
  {
    if |a| == 0 {
      assert a + b == b;
    } else {
      assert (a + b)[0] == a[0];
      assert (a + b)[1..] == a[1..] + b;
      MissingAppend(a[1..], b, present);
    }
  }

  /** The first value of Bcc as the address list it names: none when that
      value is empty. */
  function OldBcc(p: MailParsers, h: Header): seq<Address>
  {
    var prior := Get(h, "Bcc");
    if prior != "" && p.parseAddressList(prior).Some? then p.parseAddressList(prior).value else []
  }

  /** The first Bcc value is empty or parses as an address list. */
  predicate BccReadable(p: MailParsers, h: Header)
  {
    Get(h, "Bcc") == "" || p.parseAddressList(Get(h, "Bcc")).Some?
  }

  /** The Bcc patch: missing recipients are added to Bcc as one value
      joined to the first previous value; all other Bcc values are dropped. */
  function PatchBcc(p: MailParsers, h: Header, rcpts: seq<Address>): (h': Header)
    ensures AgreeOutside(h, h', {"Bcc"})
    ensures |Missing(rcpts, Present(p, h))| == 0 ==> h' == h
    ensures |Missing(rcpts, Present(p, h))| > 0 ==> "Bcc" in h' && |h'["Bcc"]| == 1
  {
    var missing := Missing(rcpts, Present(p, h));
    if |missing| == 0 then h
    else
      var prior := Get(h, "Bcc");
      var added := JoinRendered(p, missing);
      h["Bcc" := [if prior != "" then ListConcat(prior, added) else added]]
  }

  /** The sender's bare address is among those the From field lists. */
  predicate SenderInFrom(p: MailParsers, h: Header, sender: Address)
  {
    sender.address in BareAddresses(AddressList(p, h, "From"))
  }

  /** The From patch: a From that does not list the sender is replaced
      wholesale by the sender's rendered address. */
  function PatchFrom(p: MailParsers, h: Header, sender: Address): (h': Header)
    ensures AgreeOutside(h, h', {"From"})
    ensures SenderInFrom(p, h, sender) ==> h' == h
    ensures !SenderInFrom(p, h, sender) ==> Values(h', "From") == [p.render(sender)]
  {
    if SenderInFrom(p, h, sender) then h else h["From" := [p.render(sender)]]
  }

  /** The whole reconciliation: Bcc first, then From; the body and every
      other header are untouched. */
  function Reconciled(p: MailParsers, m: Message, sender: Address, rcpts: seq<Address>): (r: Message)
    ensures r.body == m.body
    ensures AgreeOutside(m.header, r.header, {"Bcc", "From"})
  {
    Message(PatchFrom(p, PatchBcc(p, m.header, rcpts), sender), m.body)
  }

  /** Agreeing outside a set of keys means equal values at every other key. */
  lemma SameOutside(h: Header, h': Header, keys: set<string>, other: string)
    requires AgreeOutside(h, h', keys)
    requires other !in keys
    ensures Values(h', other) == Values(h, other)
    ensures Get(h', other) == Get(h, other)
  {
  }

  /** After the Bcc patch, Bcc lists the previous Bcc list followed by the
      missing recipients, in RCPT order with repetitions. */
  lemma BccListsMissing(p: MailParsers, h: Header, rcpts: seq<Address>)
    requires Faithful(p) && AllRoundTrip(p, rcpts)
    requires BccReadable(p, h)
    requires |Missing(rcpts, Present(p, h))| > 0
    ensures AddressList(p, PatchBcc(p, h, rcpts), "Bcc")
      == Some(OldBcc(p, h) + Missing(rcpts, Present(p, h)))
  {
    var missing := Missing(rcpts, Present(p, h));
    var added := JoinRendered(p, missing);
    var h' := PatchBcc(p, h, rcpts);
    MissingRoundTrips(p, rcpts, Present(p, h));
    JoinRenderedParses(p, missing);
    var prior := Get(h, "Bcc");
    if prior == "" {
      assert Get(h', "Bcc") == added;
      assert OldBcc(p, h) + missing == missing;
    } else {
      assert Get(h', "Bcc") == ListConcat(prior, added);
    }
  }

  /** Present reads only the first values of To, Cc and Bcc. */
  lemma PresentReadsDestinations(p: MailParsers, h: Header, g: Header)
    requires forall key :: key in DestinationFields ==> Get(h, key) == Get(g, key)
    ensures Present(p, h) == Present(p, g)
  {
    assert Get(h, "To") == Get(g, "To") && Get(h, "Cc") == Get(g, "Cc") && Get(h, "Bcc") == Get(g, "Bcc");
  }

  /** A recipient that is not present is missing. */
  lemma AbsentIsMissing(rcpts: seq<Address>, present: set<string>, i: nat)
    requires i < |rcpts| && rcpts[i].address !in present
    ensures rcpts[i] in Missing(rcpts, present)
  {
    var a := rcpts[i];
    assert multiset(rcpts)[a] > 0;
    assert multiset(Missing(rcpts, present))[a] > 0;
  }

  /** The From patch leaves the destination fields alone. */
  lemma PatchFromKeepsPresent(p: MailParsers, h: Header, sender: Address)
    ensures Present(p, PatchFrom(p, h, sender)) == Present(p, h)
  {
    var f := PatchFrom(p, h, sender);
    SameOutside(h, f, {"From"}, "To");
    SameOutside(h, f, {"From"}, "Cc");
    SameOutside(h, f, {"From"}, "Bcc");
  }

  /** One recipient is present once Bcc lists the previous Bcc list and
      the missing recipients. */
  lemma CoveredByListing(p: MailParsers, h: Header, rcpts: seq<Address>, i: nat)
    requires Faithful(p) && AllRoundTrip(p, rcpts)
    requires BccReadable(p, h)
    requires i < |rcpts|
    requires |Missing(rcpts, Present(p, h))| > 0
    ensures rcpts[i].address in Present(p, PatchBcc(p, h, rcpts))
  {
    BccListsMissing(p, h, rcpts);
    var present := Present(p, h);
    var missing := Missing(rcpts, present);
    var b := PatchBcc(p, h, rcpts);
    var a := rcpts[i];
    SameOutside(h, b, {"Bcc"}, "To");
    SameOutside(h, b, {"Bcc"}, "Cc");
    if a.address !in present {
      AbsentIsMissing(rcpts, present, i);
      ListedAt(OldBcc(p, h), missing, a);
    } else if a.address in BareAddresses(AddressList(p, h, "Bcc")) {
      var j :| 0 <= j < |OldBcc(p, h)| && OldBcc(p, h)[j].address == a.address;
      ListedAt(OldBcc(p, h), missing, OldBcc(p, h)[j]);
    }
  }

  /** Both parts of a concatenated list are listed in it. */
  lemma ListedAt(first: seq<Address>, second: seq<Address>, a: Address)
    requires a in first || a in second
    ensures a.address in BareAddresses(Some(first + second))
  {
    assert a in first + second;
  }

  /** When the first Bcc value is non-empty but unparseable, the patch
      prepends it to the missing list, and a library that rejects a list
      whose first element does not parse leaves every missing recipient
      still unnamed. */
  lemma UnreadableBccStaysUnread(p: MailParsers, h: Header, rcpts: seq<Address>)
    requires Get(h, "Bcc") != "" && p.parseAddressList(Get(h, "Bcc")).None?
    requires |Missing(rcpts, Present(p, h))| > 0
    requires p.parseAddressList(ListConcat(Get(h, "Bcc"), JoinRendered(p, Missing(rcpts, Present(p, h))))).None?
    ensures AddressList(p, PatchBcc(p, h, rcpts), "Bcc").None?
    ensures forall i :: 0 <= i < |rcpts| && rcpts[i].address !in Present(p, h) ==>
      rcpts[i].address !in Present(p, PatchBcc(p, h, rcpts))
  {
    var b := PatchBcc(p, h, rcpts);
    SameOutside(h, b, {"Bcc"}, "To");
    SameOutside(h, b, {"Bcc"}, "Cc");
    assert Get(b, "Bcc") == ListConcat(Get(h, "Bcc"), JoinRendered(p, Missing(rcpts, Present(p, h))));
  }

  /** One recipient is present after the Bcc patch. */
  lemma PatchBccCoversOne(p: MailParsers, h: Header, rcpts: seq<Address>, i: nat)
    requires Faithful(p) && AllRoundTrip(p, rcpts)
    requires BccReadable(p, h)
    requires i < |rcpts|
    ensures rcpts[i].address in Present(p, PatchBcc(p, h, rcpts))
  {
    var present := Present(p, h);
    if |Missing(rcpts, present)| == 0 {
      if rcpts[i].address !in present {
        AbsentIsMissing(rcpts, present, i);
      }
    } else {
      CoveredByListing(p, h, rcpts, i);
    }
  }

  /** After reconciliation every envelope recipient's bare address is
      named in To, Cc or Bcc, provided the previous Bcc was readable. */
  lemma RecipientsCovered(p: MailParsers, m: Message, sender: Address, rcpts: seq<Address>)
    requires Faithful(p) && AllRoundTrip(p, rcpts)
    requires BccReadable(p, m.header)
    ensures forall i :: 0 <= i < |rcpts| ==>
      rcpts[i].address in Present(p, Reconciled(p, m, sender, rcpts).header)
  {
    var b := PatchBcc(p, m.header, rcpts);
    PatchFromKeepsPresent(p, b, sender);
    forall i | 0 <= i < |rcpts|
      ensures rcpts[i].address in Present(p, b)
    {
      PatchBccCoversOne(p, m.header, rcpts, i);
    }
  }

  /** After reconciliation From always lists the sender. */
  lemma SenderCovered(p: MailParsers, m: Message, sender: Address, rcpts: seq<Address>)
    requires Faithful(p) && RoundTrips(p, sender)
    ensures SenderInFrom(p, Reconciled(p, m, sender, rcpts).header, sender)
  {
    var b := PatchBcc(p, m.header, rcpts);
    var f := PatchFrom(p, b, sender);
    if !SenderInFrom(p, b, sender) {
      assert Get(f, "From") == p.render(sender);
      assert AddressList(p, f, "From") == Some([sender]);
    }
  }

  /** The header the session synthesises for unparseable input. */
  function FallbackHeader(p: MailParsers, sender: Address, rcpts: seq<Address>): Header
  {
    map["From" := [p.render(sender)],
        "To" := [JoinRendered(p, rcpts)],
        "Subject" := [NoSubject],
        "Content-Type" := [PlainTextUtf8]]
  }

  /** The fallback message: the synthesised header around the raw input. */
  function FallbackMessage(p: MailParsers, sender: Address, rcpts: seq<Address>, raw: string): Message
  {
    Message(FallbackHeader(p, sender, rcpts), Content(raw))
  }

  /** The text the session writes for the fallback: one buffer write per
      header line, the blank line, then the raw input. */
  function FallbackText(p: MailParsers, sender: Address, rcpts: seq<Address>, raw: string): (r: string)
    ensures r == Wire.Concat(Wire.HeaderLines(FallbackHeader(p, sender, rcpts), FallbackOrder)) + Wire.CRLF + raw
  {
    var fromLine := "From: " + p.render(sender) + "\r\n";
    var toLine := "To: " + JoinRendered(p, rcpts) + "\r\n";
    var subjectLine := "Subject: " + NoSubject + "\r\n";
    var typeLine := "Content-Type: " + PlainTextUtf8 + "\r\n";
    FallbackHeaderLines(p, sender, rcpts);
    FallbackWritesAreLines(p.render(sender), JoinRendered(p, rcpts));
    ConcatFour(fromLine, toLine, subjectLine, typeLine);
    fromLine + toLine + subjectLine + typeLine + "\r\n" + raw
  }

  const FallbackOrder := ["From", "To", "Subject", "Content-Type"]

  /** The fallback header's keys in the order the session writes them. */
  lemma FallbackHeaderLines(p: MailParsers, sender: Address, rcpts: seq<Address>)
    ensures Wire.IsIterationOrder(FallbackHeader(p, sender, rcpts), FallbackOrder)
    ensures Wire.HeaderLines(FallbackHeader(p, sender, rcpts), FallbackOrder)
      == [Wire.Line("From", p.render(sender)), Wire.Line("To", JoinRendered(p, rcpts)),
          Wire.Line("Subject", NoSubject), Wire.Line("Content-Type", PlainTextUtf8)]
  {
    var h := FallbackHeader(p, sender, rcpts);
    Wire.SingleValueLines(h, "Content-Type", PlainTextUtf8, []);
    Wire.SingleValueLines(h, "Subject", NoSubject, ["Content-Type"]);
    Wire.SingleValueLines(h, "To", JoinRendered(p, rcpts), ["Subject", "Content-Type"]);
    Wire.SingleValueLines(h, "From", p.render(sender), ["To", "Subject", "Content-Type"]);
  }

  /** Four lines written one after another. */
  lemma ConcatFour(a: string, b: string, c: string, d: string)
    ensures Wire.Concat([a, b, c, d]) == a + b + c + d
  {
    Wire.ConcatCons(d, []);
    Wire.ConcatCons(c, [d]);
    Wire.ConcatCons(b, [c, d]);
    Wire.ConcatCons(a, [b, c, d]);
  }

  /** Each buffer write of the fallback is one header line. */
  lemma FallbackWritesAreLines(from: string, to: string)
    ensures Wire.Line("From", from) == "From: " + from + "\r\n"
    ensures Wire.Line("To", to) == "To: " + to + "\r\n"
    ensures Wire.Line("Subject", NoSubject) == "Subject: " + NoSubject + "\r\n"
    ensures Wire.Line("Content-Type", PlainTextUtf8) == "Content-Type: " + PlainTextUtf8 + "\r\n"
    ensures Wire.CRLF == "\r\n"
  {
    assert "From" + ": " == "From: ";
    assert "To" + ": " == "To: ";
    assert "Subject" + ": " == "Subject: ";
    assert "Content-Type" + ": " == "Content-Type: ";
  }

  /** The fallback text is exactly the relay encoding of the fallback
      message, visiting its four keys in the order they are written. */
  lemma FallbackTextIsEncoding(p: MailParsers, sender: Address, rcpts: seq<Address>, raw: string)
    ensures Wire.IsIterationOrder(FallbackHeader(p, sender, rcpts), FallbackOrder)
    ensures Wire.Encode(FallbackMessage(p, sender, rcpts, raw), FallbackOrder)
      == Success(FallbackText(p, sender, rcpts, raw))
  {
    var from, to := p.render(sender), JoinRendered(p, rcpts);
    var a, b := Wire.Line("From", from), Wire.Line("To", to);
    var c, d := Wire.Line("Subject", NoSubject), Wire.Line("Content-Type", PlainTextUtf8);
    FallbackHeaderLines(p, sender, rcpts);
    ConcatFour(a, b, c, d);
    FallbackWritesAreLines(from, to);
  }

  /** When every recipient is present none is missing. */
  lemma {:induction false} NoneMissing(rcpts: seq<Address>, present: set<string>)
    requires forall i :: 0 <= i < |rcpts| ==> rcpts[i].address in present
    ensures Missing(rcpts, present) == []
  {
    if |rcpts| > 0 {
      NoneMissing(rcpts[1..], present);
    }
  }

  /** A one-value field holding a rendered address lists that address. */
  lemma RenderedFieldLists(p: MailParsers, h: Header, key: string, addrs: seq<Address>)
    requires Faithful(p)
    requires |addrs| > 0 && AllRoundTrip(p, addrs)
    requires Get(h, key) == JoinRendered(p, addrs)
    ensures AddressList(p, h, key) == Some(addrs)
  {
    JoinRenderedParses(p, addrs);
  }

  /** The fallback's To field names every recipient. */
  lemma FallbackMissesNone(p: MailParsers, sender: Address, rcpts: seq<Address>)
    requires Faithful(p)
    requires |rcpts| > 0 && AllRoundTrip(p, rcpts)
    ensures Missing(rcpts, Present(p, FallbackHeader(p, sender, rcpts))) == []
  {
    var h := FallbackHeader(p, sender, rcpts);
    RenderedFieldLists(p, h, "To", rcpts);
    var present := Present(p, h);
    assert forall i :: 0 <= i < |rcpts| ==> rcpts[i].address in present;
    NoneMissing(rcpts, present);
  }

  /** The fallback's From field names the sender. */
  lemma FallbackListsSender(p: MailParsers, sender: Address, rcpts: seq<Address>)
    requires Faithful(p) && RoundTrips(p, sender)
    ensures SenderInFrom(p, FallbackHeader(p, sender, rcpts), sender)
  {
    var h := FallbackHeader(p, sender, rcpts);
    assert Get(h, "From") == p.render(sender);
    assert p.render(sender) != "";
  }

  /** Reconciling the fallback changes nothing: To already names every
      recipient and From names the sender. */
  lemma FallbackNeedsNoPatch(p: MailParsers, sender: Address, rcpts: seq<Address>, raw: string)
    requires Faithful(p) && RoundTrips(p, sender)
    requires |rcpts| > 0 && AllRoundTrip(p, rcpts)
    ensures Reconciled(p, FallbackMessage(p, sender, rcpts, raw), sender, rcpts)
      == FallbackMessage(p, sender, rcpts, raw)
  {
    var h := FallbackHeader(p, sender, rcpts);
    FallbackMissesNone(p, sender, rcpts);
    FallbackListsSender(p, sender, rcpts);
    assert PatchBcc(p, h, rcpts) == h;
  }
}
