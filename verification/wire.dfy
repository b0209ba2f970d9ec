/** encodeMailMessage: a message's header map and body written out in the
    wire form of section 2.1 of RFC 5322 (header lines, blank line, body). */
module Wire {
  import opened Wrappers
  import opened NetMail

  const CRLF := "\r\n"

  /** One header field line. */
  function Line(key: string, value: string): string
  {
    key + ": " + value + CRLF
  }

  /** The lines of one key, one per value, in value order. */
  function KeyLines(key: string, values: seq<string>): (r: seq<string>)
    ensures |r| == |values|
    ensures forall i :: 0 <= i < |values| ==> r[i] == Line(key, values[i])
  {
    seq(|values|, i requires 0 <= i < |values| => Line(key, values[i]))
  }

  /** The header lines when the map's keys are visited in `order`. */
  function HeaderLines(h: Header, order: seq<string>): seq<string>
  {
    if |order| == 0 then []
    else KeyLines(order[0], Values(h, order[0])) + HeaderLines(h, order[1..])
  }

  /** The lines written one after another. */
  function Concat(lines: seq<string>): string
  {
    if |lines| == 0 then "" else lines[0] + Concat(lines[1..])
  }

  /** Go visits every key of a map exactly once, in an unspecified order;
      `order` is that visiting order. */
  predicate IsIterationOrder(h: Header, order: seq<string>)
  {
    && (forall i, j :: 0 <= i < j < |order| ==> order[i] != order[j])
    && (forall k :: k in order ==> k in h)
    && (forall k :: k in h ==> k in order)
  }

  /** The body as written: nothing for a nil body. */
  function BodyText(b: Body): string
    requires !b.Unreadable?
  {
    if b.Content? then b.data else ""
  }

  /** encodeMailMessage. The only failure is an error while reading the body. */
  function Encode(m: Message, order: seq<string>): (r: Result<string, string>)
    requires IsIterationOrder(m.header, order)
    ensures r.Failure? <==> m.body.Unreadable?
    ensures r.Failure? ==> r.error == m.body.cause
    ensures r.Success? ==>
      r.value == Concat(HeaderLines(m.header, order)) + CRLF + BodyText(m.body)
  {
    if m.body.Unreadable? then Failure(m.body.cause)
    else Success(Concat(HeaderLines(m.header, order)) + CRLF + BodyText(m.body))
  }

  /** Some key of a non-empty map. */
  ghost function AnyKey(h: Header): (k: string)
    requires |h| > 0
    ensures k in h
  {
    var k :| k in h; k
  }

  /** The number of header values in a map, defined without any order. */
  ghost function ValueCount(h: Header): nat
    decreases |h|
  {
    if |h| == 0 then 0
    else |h[AnyKey(h)]| + ValueCount(h - {AnyKey(h)})
  }

  lemma {:induction false} HeaderLinesAppend(h: Header, a: seq<string>, b: seq<string>)
    ensures HeaderLines(h, a + b) == HeaderLines(h, a) + HeaderLines(h, b)
  {
    if |a| == 0 {
      assert a + b == b;
    } else {
      assert (a + b)[0] == a[0];
      assert (a + b)[1..] == a[1..] + b;
      HeaderLinesAppend(h, a[1..], b);
    }
  }

  /** Visiting keys in a permuted order permutes the lines. */
  lemma {:induction false} HeaderLinesPermutation(h: Header, o1: seq<string>, o2: seq<string>)
    requires multiset(o1) == multiset(o2)
    ensures multiset(HeaderLines(h, o1)) == multiset(HeaderLines(h, o2))
    decreases |o1|
  {
    if |o1| == 0 {
      assert |o2| == |multiset(o2)| == 0;
    } else {
      var k := o1[0];
      assert k in multiset(o2);
      var j :| 0 <= j < |o2| && o2[j] == k;
      var before, after := o2[..j], o2[j + 1..];
      RemoveMatching(o1, o2, j);
      HeaderLinesPermutation(h, o1[1..], before + after);
      assert o2 == before + [k] + after;
      LinesAround(h, before, k, after);
      assert o1 == [k] + o1[1..];
    }
  }

  /** The lines of one key in the middle of an order can be moved to the front. */
  lemma LinesAround(h: Header, before: seq<string>, k: string, after: seq<string>)
    ensures multiset(HeaderLines(h, before + [k] + after))
      == multiset(KeyLines(k, Values(h, k))) + multiset(HeaderLines(h, before + after))
  {
    HeaderLinesAppend(h, before + [k], after);
    HeaderLinesAppend(h, before, [k]);
    HeaderLinesAppend(h, before, after);
    assert HeaderLines(h, [k]) == KeyLines(k, Values(h, k)) + HeaderLines(h, []);
  }

  /** Removing the same element from two permutations leaves permutations. */
  lemma RemoveMatching(o1: seq<string>, o2: seq<string>, j: nat)
    requires multiset(o1) == multiset(o2)
    requires |o1| > 0 && j < |o2| && o2[j] == o1[0]
    ensures multiset(o1[1..]) == multiset(o2[..j] + o2[j + 1..])
  {
    assert o1 == [o1[0]] + o1[1..];
    assert o2 == o2[..j] + [o2[j]] + o2[j + 1..];
    calc {
      multiset(o1[1..]);
      multiset(o1) - multiset{o1[0]};
      multiset(o2) - multiset{o2[j]};
      multiset(o2[..j] + o2[j + 1..]);
    }
  }

  /** A sequence without repetitions holds each element once. */
  lemma {:induction false} DistinctCounts(s: seq<string>)
    requires forall i, j :: 0 <= i < j < |s| ==> s[i] != s[j]
    ensures forall x :: multiset(s)[x] == if x in s then 1 else 0
  {
    if |s| > 0 {
      DistinctCounts(s[1..]);
      assert s == [s[0]] + s[1..];
    }
  }

  /** Any two visiting orders of the same map produce the same lines, up to
      order: the encoding does not depend on Go's map iteration order beyond
      the order of its lines. */
  lemma EncodeOrderIndependent(h: Header, o1: seq<string>, o2: seq<string>)
    requires IsIterationOrder(h, o1) && IsIterationOrder(h, o2)
    ensures multiset(HeaderLines(h, o1)) == multiset(HeaderLines(h, o2))
    ensures |HeaderLines(h, o1)| == |HeaderLines(h, o2)|
  {
    DistinctCounts(o1);
    DistinctCounts(o2);
    assert forall x :: multiset(o1)[x] == multiset(o2)[x];
    assert multiset(o1) == multiset(o2);
    HeaderLinesPermutation(h, o1, o2);
    assert |HeaderLines(h, o1)| == |multiset(HeaderLines(h, o1))|;
  }

  /** Lines only depend on the values of the visited keys. */
  lemma {:induction false} HeaderLinesAgree(h: Header, g: Header, order: seq<string>)
    requires forall k :: k in order ==> Values(h, k) == Values(g, k)
    ensures HeaderLines(h, order) == HeaderLines(g, order)
  {
    if |order| > 0 {
      HeaderLinesAgree(h, g, order[1..]);
    }
  }

  /** Dropping one key from a visiting order visits the remaining map. */
  lemma DropKey(h: Header, order: seq<string>, j: nat)
    requires IsIterationOrder(h, order)
    requires j < |order|
    ensures IsIterationOrder(h - {order[j]}, order[..j] + order[j + 1..])
    ensures multiset(order) == multiset([order[j]] + order[..j] + order[j + 1..])
  {
    var k := order[j];
    var others := order[..j] + order[j + 1..];
    assert order == order[..j] + [k] + order[j + 1..];
    forall i | 0 <= i < |others|
      ensures others[i] == order[if i < j then i else i + 1]
    {
    }
    forall x | x in others
      ensures x in h - {k}
    {
      var i :| 0 <= i < |others| && others[i] == x;
    }
    forall x | x in h - {k}
      ensures x in others
    {
      var i :| 0 <= i < |order| && order[i] == x;
      assert x == others[if i < j then i else i - 1];
    }
  }

  /** The lines of a map are those of one key plus those of the rest. */
  lemma LinesWithoutKey(h: Header, order: seq<string>, j: nat)
    requires IsIterationOrder(h, order)
    requires j < |order|
    ensures var k := order[j];
      && IsIterationOrder(h - {k}, order[..j] + order[j + 1..])
      && multiset(HeaderLines(h, order))
         == multiset(KeyLines(k, h[k])) + multiset(HeaderLines(h - {k}, order[..j] + order[j + 1..]))
      && |HeaderLines(h, order)| == |h[k]| + |HeaderLines(h - {k}, order[..j] + order[j + 1..])|
  {
    var k := order[j];
    var others := order[..j] + order[j + 1..];
    DropKey(h, order, j);
    HeaderLinesPermutation(h, order, [k] + others);
    assert |HeaderLines(h, order)| == |HeaderLines(h, [k] + others)| by {
      assert |HeaderLines(h, order)| == |multiset(HeaderLines(h, order))|;
      assert |HeaderLines(h, [k] + others)| == |multiset(HeaderLines(h, [k] + others))|;
    }
    assert HeaderLines(h, [k] + others) == KeyLines(k, h[k]) + HeaderLines(h, others) by {
      assert ([k] + others)[1..] == others;
    }
    assert k !in others;
    HeaderLinesAgree(h, h - {k}, others);
  }

  /** The encoding has exactly one line per header value. */
  lemma {:induction false} LineCount(h: Header, order: seq<string>)
    requires IsIterationOrder(h, order)
    ensures |HeaderLines(h, order)| == ValueCount(h)
    decreases |order|
  {
    if |order| == 0 {
      assert h.Keys == {};
    } else {
      assert order[0] in h;
      var k := AnyKey(h);
      var j :| 0 <= j < |order| && order[j] == k;
      LinesWithoutKey(h, order, j);
      LineCount(h - {k}, order[..j] + order[j + 1..]);
    }
  }

  /** The line of one value of a visited key is among the header lines. */
  lemma {:induction false} LineOfValue(h: Header, order: seq<string>, k: string, i: nat)
    requires k in order && k in h && i < |h[k]|
    ensures Line(k, h[k][i]) in HeaderLines(h, order)
  {
    if order[0] == k {
      assert KeyLines(k, h[k])[i] == Line(k, h[k][i]);
    } else {
      LineOfValue(h, order[1..], k, i);
    }
  }

  /** Every header value is written as its own line, and every line written
      is some key's value. */
  lemma LinesAreTheValues(h: Header, order: seq<string>)
    requires IsIterationOrder(h, order)
    ensures forall k, i :: k in h && 0 <= i < |h[k]| ==> Line(k, h[k][i]) in HeaderLines(h, order)
    ensures forall line :: line in HeaderLines(h, order) ==>
      exists k, i :: k in h && 0 <= i < |h[k]| && line == Line(k, h[k][i])
  {
    forall k, i | k in h && 0 <= i < |h[k]|
      ensures Line(k, h[k][i]) in HeaderLines(h, order)
    {
      LineOfValue(h, order, k, i);
    }
    forall line | line in HeaderLines(h, order)
      ensures exists k, i :: k in h && 0 <= i < |h[k]| && line == Line(k, h[k][i])
    {
      LineFromSomeKey(h, order, line);
    }
  }

  lemma {:induction false} LineFromSomeKey(h: Header, order: seq<string>, line: string)
    requires forall k :: k in order ==> k in h
    requires line in HeaderLines(h, order)
    ensures exists k, i :: k in h && 0 <= i < |h[k]| && line == Line(k, h[k][i])
  {
    var k := order[0];
    var first := KeyLines(k, Values(h, k));
    if line in first {
      var i :| 0 <= i < |first| && first[i] == line;
      assert line == Line(k, h[k][i]);
    } else {
      LineFromSomeKey(h, order[1..], line);
    }
  }

  /** A key with a single value contributes a single line. */
  lemma SingleValueLines(h: Header, key: string, value: string, rest: seq<string>)
    requires Values(h, key) == [value]
    ensures HeaderLines(h, [key] + rest) == [Line(key, value)] + HeaderLines(h, rest)
  {
    assert ([key] + rest)[1..] == rest;
    assert KeyLines(key, [value]) == [Line(key, value)];
  }

  lemma ConcatCons(line: string, lines: seq<string>)
    ensures Concat([line] + lines) == line + Concat(lines)
  {
    assert ([line] + lines)[1..] == lines;
  }
}
