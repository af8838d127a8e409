/**
 * Streams of self-delimiting items.  The write-ahead log is a stream of records and a plaintext
 * connection is a stream of frames; both readers stop at the first item that is not wholly there.
 * The facts proved here once serve both.
 */
module PrefixCode {
  import opened Bytes

  /** What a parser sees at the head of a byte stream. */
  datatype Parse<+T> = Item(value: T, used: nat) | Stop

  type Parser<!T> = Bytes -> Parse<T>
  type Printer<!T> = T -> Bytes

  function PrintAll<T>(image: Printer<T>, items: seq<T>): Bytes
  {
    if items == [] then [] else image(items[0]) + PrintAll(image, items[1..])
  }

  function ParseAll<T>(parse: Parser<T>, b: Bytes): seq<T>
    decreases |b|
  {
    var p := parse(b);
    if p.Item? && 0 < p.used <= |b| then [p.value] + ParseAll(parse, b[p.used..]) else []
  }

  /** The bytes left over when no further item can be read. */
  function Leftover<T>(parse: Parser<T>, b: Bytes): Bytes
    decreases |b|
  {
    var p := parse(b);
    if p.Item? && 0 < p.used <= |b| then Leftover(parse, b[p.used..]) else b
  }

  /** `image` and `parse` fit together on `item`: a whole image is read back, a torn one is not read. */
  ghost predicate Delimits<T>(image: Printer<T>, parse: Parser<T>, item: T)
  {
    && 0 < |image(item)|
    && (forall rest: Bytes :: parse(image(item) + rest) == Item(item, |image(item)|))
    && (forall k: nat :: k < |image(item)| ==> parse(image(item)[..k]) == Stop)
  }

  ghost predicate AllDelimited<T>(image: Printer<T>, parse: Parser<T>, items: seq<T>)
  {
    forall i :: 0 <= i < |items| ==> Delimits(image, parse, items[i])
  }

  /** How many of `items` lie wholly inside the first `k` bytes of their image. */
  function Whole<T>(image: Printer<T>, items: seq<T>, k: nat): (n: nat)
    ensures n <= |items|
  {
    if items == [] || |image(items[0])| > k then 0
    else 1 + Whole(image, items[1..], k - |image(items[0])|)
  }

  /** `Whole` is the largest count whose image fits in `k` bytes. */
  lemma {:induction false} WholeIsLargest<T>(image: Printer<T>, items: seq<T>, k: nat)
    ensures var n := Whole(image, items, k);
            && |PrintAll(image, items[..n])| <= k
            && (n < |items| ==> |PrintAll(image, items[..n + 1])| > k)
  {
    if items != [] && |image(items[0])| <= k {
      var n := Whole(image, items, k);
      WholeIsLargest(image, items[1..], k - |image(items[0])|);
      assert items[..n][1..] == items[1..][..n - 1];
      if n < |items| {
        assert items[..n + 1][1..] == items[1..][..n];
      }
    } else if items != [] {
      assert items[..1] == [items[0]];
    }
  }

  lemma {:induction false} PrintAllAppend<T>(image: Printer<T>, a: seq<T>, b: seq<T>)
    ensures PrintAll(image, a + b) == PrintAll(image, a) + PrintAll(image, b)
  {
    if a == [] {
      assert a + b == b;
    } else {
      PrintAllAppend(image, a[1..], b);
      assert (a + b)[0] == a[0] && (a + b)[1..] == a[1..] + b;
      Assoc(image(a[0]), PrintAll(image, a[1..]), PrintAll(image, b));
    }
  }

  /** One printed item at the head of a stream is read and stepped over. */
  lemma ParseHead<T>(image: Printer<T>, parse: Parser<T>, item: T, rest: Bytes)
    requires Delimits(image, parse, item)
    ensures ParseAll(parse, image(item) + rest) == [item] + ParseAll(parse, rest)
    ensures Leftover(parse, image(item) + rest) == Leftover(parse, rest)
  {
    var b := image(item) + rest;
    assert parse(b) == Item(item, |image(item)|);
    assert b[|image(item)|..] == rest;
  }

  lemma PrintHead<T>(image: Printer<T>, items: seq<T>, rest: Bytes)
    requires items != []
    ensures PrintAll(image, items) + rest == image(items[0]) + (PrintAll(image, items[1..]) + rest)
  {
    Assoc(image(items[0]), PrintAll(image, items[1..]), rest);
  }

  lemma HeadJoins<T>(items: seq<T>, more: seq<T>)
    requires items != []
    ensures [items[0]] + (items[1..] + more) == items + more
  {
  }

  /** Whatever follows, a printed list is read back first. */
  lemma {:induction false} ParsePrinted<T>(image: Printer<T>, parse: Parser<T>, items: seq<T>, rest: Bytes)
    requires AllDelimited(image, parse, items)
    ensures ParseAll(parse, PrintAll(image, items) + rest) == items + ParseAll(parse, rest)
    ensures Leftover(parse, PrintAll(image, items) + rest) == Leftover(parse, rest)
  {
    if items == [] {
      assert PrintAll(image, items) + rest == rest;
    } else {
      var head, tail := items[0], items[1..];
      var more := PrintAll(image, tail) + rest;
      PrintHead(image, items, rest);
      ParseHead(image, parse, head, more);
      ParsePrinted(image, parse, tail, rest);
      HeadJoins(items, ParseAll(parse, rest));
    }
  }

  /** Cutting the image anywhere leaves exactly the items that lie wholly before the cut. */
  lemma {:induction false} ParseTruncated<T>(image: Printer<T>, parse: Parser<T>, items: seq<T>, k: nat)
    requires AllDelimited(image, parse, items)
    requires parse([]) == Stop
    requires k <= |PrintAll(image, items)|
    ensures ParseAll(parse, PrintAll(image, items)[..k]) == items[..Whole(image, items, k)]
  {
    var b := PrintAll(image, items)[..k];
    if items == [] {
      assert b == [];
    } else {
      var head := image(items[0]);
      assert Delimits(image, parse, items[0]);
      if |head| > k {
        assert b == head[..k];
      } else {
        var tail := PrintAll(image, items[1..])[..k - |head|];
        assert b == head + tail;
        assert b[|head|..] == tail;
        ParseTruncated(image, parse, items[1..], k - |head|);
      }
    }
  }

  /** One step of a reading loop: the item at `pos` joins those already read. */
  lemma ParseStep<T>(parse: Parser<T>, b: Bytes, seen: seq<T>, at: Bytes)
    requires parse(at).Item? && 0 < parse(at).used <= |at|
    requires ParseAll(parse, b) == seen + ParseAll(parse, at)
    ensures ParseAll(parse, b) == (seen + [parse(at).value]) + ParseAll(parse, at[parse(at).used..])
  {
  }

  /** Reading goes on after the leftover of a first part as if the part had been removed. */
  lemma {:induction false} ParseResumes<T>(parse: Parser<T>, a: Bytes, b: Bytes)
    requires forall x: Bytes, y: Bytes :: parse(x).Item? && 0 < parse(x).used <= |x| ==> parse(x + y) == parse(x)
    ensures ParseAll(parse, a + b) == ParseAll(parse, a) + ParseAll(parse, Leftover(parse, a) + b)
    decreases |a|
  {
    var p := parse(a);
    if p.Item? && 0 < p.used <= |a| {
      assert parse(a + b) == p;
      assert (a + b)[p.used..] == a[p.used..] + b;
      ParseResumes(parse, a[p.used..], b);
    }
  }
}
