/**
  Output capture: each stream is drained into a bounded buffer, then one budget is split between
  the two, cutting on a character boundary.
 */
module OutputCapture {
  import opened Wrappers

  type byte = b: int | 0 <= b < 256

  // One read from a pipe: some bytes (none at end of file), or an error.
  datatype Read = Data(bytes: seq<byte>) | Broken

  // The bytes that arrive before end of file or an error.
  function Received(input: seq<Read>): seq<byte> {
    if input == [] || input[0].Broken? || input[0].bytes == [] then []
    else input[0].bytes + Received(input[1..])
  }

  predicate EndsBroken(input: seq<Read>) {
    input != [] && (input[0].Broken? || (input[0].bytes != [] && EndsBroken(input[1..])))
  }

  function Prefix(s: seq<byte>, n: nat): seq<byte> {
    if |s| <= n then s else s[..n]
  }

  class BoundedDrain {
    const cap: nat
    var buf: seq<byte>
    var seen: nat
    var broken: bool

    constructor (cap: nat)
      ensures this.cap == cap && buf == [] && seen == 0 && !broken
    {
      this.cap, buf, seen, broken := cap, [], 0, false;
    }

    // Reads to the end whatever the volume, keeps `cap + 1` bytes and counts them all.
    method Drain(input: seq<Read>)
      requires |buf| <= cap + 1
      modifies this`buf, this`seen, this`broken
      ensures buf == Prefix(old(buf) + Received(input), cap + 1)
      ensures seen == old(seen) + |Received(input)|
      ensures broken == (old(broken) || EndsBroken(input))
    {
      hide Prefix;
      var i := 0;
      assert input[0..] == input;
      while i < |input|
        invariant i <= |input| && |buf| <= cap + 1 && broken == old(broken)
        invariant Prefix(buf + Received(input[i..]), cap + 1) == Prefix(old(buf) + Received(input), cap + 1)
        invariant seen + |Received(input[i..])| == old(seen) + |Received(input)|
        invariant EndsBroken(input[i..]) == EndsBroken(input)
      {
        var chunk := input[i];
        assert input[i..][0] == chunk && input[i..][1..] == input[i + 1..];
        if chunk.Broken? {
          broken := true;
          break;
        }
        if chunk.bytes == [] { break; }
        seen := seen + |chunk.bytes|;
        PrefixGrows(buf, chunk.bytes, Received(input[i + 1..]), cap + 1);
        var room := cap + 1 - |buf|;
        if room > 0 {
          buf := buf + Prefix(chunk.bytes, room);
        }
        i := i + 1;
      }
      PrefixShort(buf, cap + 1);
      assert buf + [] == buf;
    }

    // `None` after an error: what was counted is then a prefix, not a total.
    method Seen() returns (n: Option<nat>)
      ensures n == if broken then None else Some(seen)
    {
      n := if broken then None else Some(seen);
    }
  }

  lemma PrefixShort(s: seq<byte>, n: nat)
    requires |s| <= n
    ensures Prefix(s, n) == s
  {
  }

  // Keeping what fits of a chunk loses nothing that would have been kept.
  lemma PrefixGrows(buf: seq<byte>, chunk: seq<byte>, rest: seq<byte>, n: nat)
    requires |buf| <= n
    ensures Prefix(buf + (chunk + rest), n) == Prefix(buf + Prefix(chunk, n - |buf|) + rest, n)
    ensures |buf + Prefix(chunk, n - |buf|)| <= n && (|buf| == n ==> buf + Prefix(chunk, 0) == buf)
  {
    var a, b := buf + (chunk + rest), buf + Prefix(chunk, n - |buf|) + rest;
    if |chunk| <= n - |buf| {
      assert a == b;
    } else {
      assert a[..n] == buf + chunk[..n - |buf|] == b[..n];
      assert |b| == n ==> b[..n] == b;
    }
  }

  // ---------------------------------------------------------------- the cut

  predicate Continuation(b: byte) {
    0x80 <= b <= 0xBF
  }

  // The back-off from `cut`, at most three bytes below `keep`.
  function CutFrom(data: seq<byte>, keep: nat, cut: nat): (c: nat)
    requires cut <= keep < |data|
    ensures c <= cut
    decreases cut
  {
    if cut > 0 && keep - cut < 3 && Continuation(data[cut]) then CutFrom(data, keep, cut - 1) else cut
  }

  function CutAt(data: seq<byte>, keep: nat): (c: nat)
    ensures c <= keep && c <= |data|
  {
    if keep >= |data| then |data| else CutFrom(data, keep, keep)
  }

  method CutUtf8(data: seq<byte>, keep: nat) returns (cut: nat)
    ensures cut == CutAt(data, keep)
  {
    if keep >= |data| { return |data|; }
    cut := keep;
    while cut > 0 && keep - cut < 3 && Continuation(data[cut])
      invariant cut <= keep && CutFrom(data, keep, cut) == CutFrom(data, keep, keep)
    {
      cut := cut - 1;
    }
  }

  // ---------------------------------------------------------------- the split

  // "\n…[truncated]" in UTF-8.
  const MARKER: seq<byte> := [0x0A, 0xE2, 0x80, 0xA6, 0x5B, 0x74, 0x72, 0x75, 0x6E, 0x63, 0x61, 0x74, 0x65, 0x64, 0x5D]

  function Min(a: int, b: int): int {
    if a <= b then a else b
  }

  // The bytes of budget that each of two streams of the given lengths may keep.
  function Shares(cap: nat, n: nat, m: nat): (nat, nat) {
    var out, err := Min(n, cap / 2), Min(m, cap / 2);
    var spare := cap - out - err;
    var grow := Min(spare, n - out);
    (out + grow, err + Min(spare - grow, m - err))
  }

  function Keep(data: seq<byte>, budget: nat): seq<byte> {
    if |data| <= budget then data else data[..CutAt(data, budget)] + MARKER
  }

  datatype Split = Split(out: seq<byte>, err: seq<byte>, truncated: bool)

  function SplitBudget(cap: nat, out: seq<byte>, err: seq<byte>): Split {
    if |out| + |err| <= cap then Split(out, err, false)
    else
      var (o, e) := Shares(cap, |out|, |err|);
      Split(Keep(out, o), Keep(err, e), true)
  }

  method SplitOutputBudget(cap: nat, out: seq<byte>, err: seq<byte>) returns (r: Split)
    ensures r == SplitBudget(cap, out, err)
  {
    if |out| + |err| <= cap { return Split(out, err, false); }
    var outKeep, errKeep := Min(|out|, cap / 2), Min(|err|, cap / 2);
    var spare := cap - outKeep - errKeep;
    var grow := Min(spare, |out| - outKeep);
    outKeep := outKeep + grow;
    spare := spare - grow;
    errKeep := errKeep + Min(spare, |err| - errKeep);
    var o := KeepWithin(out, outKeep);
    var e := KeepWithin(err, errKeep);
    r := Split(o, e, true);
  }

  method KeepWithin(data: seq<byte>, budget: nat) returns (kept: seq<byte>)
    ensures kept == Keep(data, budget)
  {
    if |data| <= budget { return data; }
    var cut := CutUtf8(data, budget);
    kept := data[..cut] + MARKER;
  }

  // The cut only moves back, and by no more than three bytes.
  lemma {:induction false} CutBounds(data: seq<byte>, keep: nat, cut: nat)
    requires cut <= keep < |data| && keep - cut <= 3
    ensures keep - 3 <= CutFrom(data, keep, cut) <= cut
    decreases cut
  {
    if cut > 0 && keep - cut < 3 && Continuation(data[cut]) { CutBounds(data, keep, cut - 1); }
  }

  // Fair, and nothing wasted: the shares of a truncated result add up to the whole budget, each
  // stream keeps at least its half or all it has, and one falls short only when the other is at
  // its guarantee, or complete.
  lemma SharesAreFair(cap: nat, n: nat, m: nat)
    requires n + m > cap
    ensures var (o, e) := Shares(cap, n, m);
      && o + e == cap
      && Min(n, cap / 2) <= o <= n && Min(m, cap / 2) <= e <= m
      && (o < n ==> e == Min(m, cap / 2))
      && (e < m ==> o == n || (e == cap / 2 && o == cap - cap / 2))
  {
  }

  // The flag is up exactly when the two streams exceed the budget; otherwise both are whole, and
  // when it is up the kept bytes stay within the budget, one marker per cut stream aside.
  lemma TruncatedIffOver(cap: nat, out: seq<byte>, err: seq<byte>)
    ensures var r := SplitBudget(cap, out, err);
      && (r.truncated <==> |out| + |err| > cap)
      && (!r.truncated ==> r.out == out && r.err == err)
      && (r.truncated ==>
            var (o, e) := Shares(cap, |out|, |err|);
            && (if o == |out| then r.out == out
                else exists c: nat :: o - 3 <= c <= o <= |out| && r.out == out[..c] + MARKER)
            && (if e == |err| then r.err == err
                else exists c: nat :: e - 3 <= c <= e <= |err| && r.err == err[..c] + MARKER))
  {
    if |out| + |err| > cap {
      SharesAreFair(cap, |out|, |err|);
      var (o, e) := Shares(cap, |out|, |err|);
      if o < |out| {
        CutBounds(out, o, o);
        assert Keep(out, o) == out[..CutAt(out, o)] + MARKER;
      }
      if e < |err| {
        CutBounds(err, e, e);
        assert Keep(err, e) == err[..CutAt(err, e)] + MARKER;
      }
    }
  }

  // ---------------------------------------------------------------- bounded capture

  lemma {:induction false} CutSeesPrefix(data: seq<byte>, n: nat, keep: nat, cut: nat)
    requires cut <= keep < n <= |data|
    ensures CutFrom(data[..n], keep, cut) == CutFrom(data, keep, cut)
    decreases cut
  {
    if cut > 0 && keep - cut < 3 && Continuation(data[cut]) { CutSeesPrefix(data, n, keep, cut - 1); }
  }

  lemma KeepSeesPrefix(data: seq<byte>, cap: nat, budget: nat)
    requires budget <= cap
    ensures Keep(Prefix(data, cap + 1), budget) == Keep(data, budget)
  {
    if |data| > cap + 1 {
      var short := data[..cap + 1];
      CutSeesPrefix(data, cap + 1, budget, budget);
      CutBounds(data, budget, budget);
      assert short[..CutAt(short, budget)] == data[..CutAt(data, budget)];
    }
  }

  lemma SharesSeePrefix(cap: nat, n: nat, m: nat)
    requires n + m > cap
    ensures Shares(cap, Min(n, cap + 1), Min(m, cap + 1)) == Shares(cap, n, m)
    ensures Shares(cap, n, m).0 <= cap && Shares(cap, n, m).1 <= cap
  {
  }

  // Splitting two buffers of `cap + 1` bytes gives what splitting the full streams gives.
  lemma BoundedCaptureRefines(cap: nat, out: seq<byte>, err: seq<byte>)
    ensures SplitBudget(cap, Prefix(out, cap + 1), Prefix(err, cap + 1)) == SplitBudget(cap, out, err)
  {
    hide Shares, Keep;
    if |out| + |err| > cap {
      SharesSeePrefix(cap, |out|, |err|);
      var (o, e) := Shares(cap, |out|, |err|);
      KeepSeesPrefix(out, cap, o);
      KeepSeesPrefix(err, cap, e);
    }
  }

  // The whole path: for every chunking of both streams and every cap.
  method Capture(cap: nat, outInput: seq<Read>, errInput: seq<Read>)
    returns (r: Split, outSeen: Option<nat>, errSeen: Option<nat>)
    ensures r == SplitBudget(cap, Received(outInput), Received(errInput))
    ensures outSeen == if EndsBroken(outInput) then None else Some(|Received(outInput)|)
    ensures errSeen == if EndsBroken(errInput) then None else Some(|Received(errInput)|)
  {
    hide SplitBudget, Received, EndsBroken;
    var out := new BoundedDrain(cap);
    var err := new BoundedDrain(cap);
    out.Drain(outInput);
    err.Drain(errInput);
    assert [] + Received(outInput) == Received(outInput) && [] + Received(errInput) == Received(errInput);
    BoundedCaptureRefines(cap, Received(outInput), Received(errInput));
    r := SplitOutputBudget(cap, out.buf, err.buf);
    outSeen := out.Seen();
    errSeen := err.Seen();
  }

  // ---------------------------------------------------------------- UTF-8 (section 4 of RFC 3629)

  // The length of the well-formed character at the start, or 0.
  function CharLen(s: seq<byte>): nat
    ensures CharLen(s) <= |s| && CharLen(s) <= 4
  {
    if |s| >= 1 && 0x00 <= s[0] <= 0x7F then 1
    else if |s| >= 2 && 0xC2 <= s[0] <= 0xDF && 0x80 <= s[1] <= 0xBF then 2
    else if |s| >= 3 && 0x80 <= s[2] <= 0xBF
            && (|| (s[0] == 0xE0 && 0xA0 <= s[1] <= 0xBF)
                || (0xE1 <= s[0] <= 0xEC && 0x80 <= s[1] <= 0xBF)
                || (s[0] == 0xED && 0x80 <= s[1] <= 0x9F)
                || (0xEE <= s[0] <= 0xEF && 0x80 <= s[1] <= 0xBF)) then 3
    else if |s| >= 4 && 0x80 <= s[2] <= 0xBF && 0x80 <= s[3] <= 0xBF
            && (|| (s[0] == 0xF0 && 0x90 <= s[1] <= 0xBF)
                || (0xF1 <= s[0] <= 0xF3 && 0x80 <= s[1] <= 0xBF)
                || (s[0] == 0xF4 && 0x80 <= s[1] <= 0x8F)) then 4
    else 0
  }

  predicate Utf8(s: seq<byte>)
    decreases |s|
  {
    s == [] || (CharLen(s) > 0 && Utf8(s[CharLen(s)..]))
  }

  // A code point that has an encoding: all but the surrogates.
  predicate Scalar(c: nat) {
    c <= 0x10FFFF && !(0xD800 <= c <= 0xDFFF)
  }

  function Encode(c: nat): seq<byte>
    requires Scalar(c)
  {
    if c <= 0x7F then [c]
    else if c <= 0x7FF then [0xC0 + c / 64, 0x80 + c % 64]
    else if c <= 0xFFFF then [0xE0 + c / 64 / 64, 0x80 + c / 64 % 64, 0x80 + c % 64]
    else [0xF0 + c / 64 / 64 / 64, 0x80 + c / 64 / 64 % 64, 0x80 + c / 64 % 64, 0x80 + c % 64]
  }

  function EncodeAll(cs: seq<nat>): seq<byte>
    requires forall i :: 0 <= i < |cs| ==> Scalar(cs[i])
  {
    if cs == [] then [] else Encode(cs[0]) + EncodeAll(cs[1..])
  }

  ghost predicate Encodes(cs: seq<nat>, s: seq<byte>) {
    (forall i :: 0 <= i < |cs| ==> Scalar(cs[i])) && EncodeAll(cs) == s
  }

  lemma EncodedLength(c: nat, rest: seq<byte>)
    requires Scalar(c)
    ensures Encode(c) != [] && CharLen(Encode(c) + rest) == |Encode(c)|
  {
    var s := Encode(c) + rest;
    var q, p := c / 64, c / 64 / 64;
    assert c == q * 64 + c % 64 && q == p * 64 + q % 64 && p == p / 64 * 64 + p % 64;
    if c <= 0x7FF {
      assert c > 0x7F ==> s[0] == 0xC0 + q && s[1] == 0x80 + c % 64;
    } else if c <= 0xFFFF {
      assert s[0] == 0xE0 + p && s[1] == 0x80 + q % 64 && s[2] == 0x80 + c % 64;
    } else {
      assert s[0] == 0xF0 + p / 64 && s[1] == 0x80 + p % 64 && s[2] == 0x80 + q % 64 && s[3] == 0x80 + c % 64;
    }
  }

  // The code point of the character at the start.
  lemma Decoded(s: seq<byte>) returns (c: nat)
    requires CharLen(s) > 0
    ensures Scalar(c) && Encode(c) == s[..CharLen(s)]
  {
    match CharLen(s)
    case 1 => c := s[0];
    case 2 => c := DecodedTwo(s[0], s[1]);
    case 3 => c := DecodedThree(s[0], s[1], s[2]);
    case _ => c := DecodedFour(s[0], s[1], s[2], s[3]);
  }

  lemma DecodedTwo(a: int, b: int) returns (c: nat)
    requires 0xC2 <= a <= 0xDF && 0x80 <= b <= 0xBF
    ensures Scalar(c) && Encode(c) == [a, b]
  {
    c := (a - 0xC0) * 64 + (b - 0x80);
  }

  lemma DecodedThree(a: int, b: int, d: int) returns (c: nat)
    requires 0xE0 <= a <= 0xEF && 0x80 <= b <= 0xBF && 0x80 <= d <= 0xBF
    requires (a == 0xE0 ==> 0xA0 <= b) && (a == 0xED ==> b <= 0x9F)
    ensures Scalar(c) && Encode(c) == [a, b, d]
  {
    var q := (a - 0xE0) * 64 + (b - 0x80);
    c := q * 64 + (d - 0x80);
    assert c / 64 == q && c % 64 == d - 0x80 && q / 64 == a - 0xE0 && q % 64 == b - 0x80;
  }

  lemma DecodedFour(a: int, b: int, d: int, e: int) returns (c: nat)
    requires 0xF0 <= a <= 0xF4 && 0x80 <= b <= 0xBF && 0x80 <= d <= 0xBF && 0x80 <= e <= 0xBF
    requires (a == 0xF0 ==> 0x90 <= b) && (a == 0xF4 ==> b <= 0x8F)
    ensures Scalar(c) && Encode(c) == [a, b, d, e]
  {
    var p := (a - 0xF0) * 64 + (b - 0x80);
    var q := p * 64 + (d - 0x80);
    c := q * 64 + (e - 0x80);
    assert c / 64 == q && c % 64 == e - 0x80 && q / 64 == p && q % 64 == d - 0x80;
    assert p / 64 == a - 0xF0 && p % 64 == b - 0x80;
  }

  // A stream is valid exactly when it is the encoding of some code points.
  lemma ValidIsEncoded(s: seq<byte>)
    ensures Utf8(s) <==> exists cs :: Encodes(cs, s)
  {
    if Utf8(s) { var cs := ValidIsDecoded(s); }
    if cs :| Encodes(cs, s) { EncodedIsValid(cs); }
  }

  lemma {:induction false} ValidIsDecoded(s: seq<byte>) returns (cs: seq<nat>)
    requires Utf8(s)
    ensures Encodes(cs, s)
    decreases |s|
  {
    cs := [];
    if s != [] {
      var n := CharLen(s);
      var c := Decoded(s);
      var rest := ValidIsDecoded(s[n..]);
      cs := [c] + rest;
      EncodeMore(c, rest);
      assert s == s[..n] + s[n..];
    }
  }

  lemma EncodeMore(c: nat, cs: seq<nat>)
    requires Scalar(c) && forall i :: 0 <= i < |cs| ==> Scalar(cs[i])
    ensures forall i :: 0 <= i < |[c] + cs| ==> Scalar(([c] + cs)[i])
    ensures EncodeAll([c] + cs) == Encode(c) + EncodeAll(cs)
  {
    assert ([c] + cs)[1..] == cs;
  }

  lemma {:induction false} EncodedIsValid(cs: seq<nat>)
    requires forall i :: 0 <= i < |cs| ==> Scalar(cs[i])
    ensures Utf8(EncodeAll(cs))
  {
    if cs != [] {
      var rest := EncodeAll(cs[1..]);
      EncodedIsValid(cs[1..]);
      EncodedLength(cs[0], rest);
      assert EncodeAll(cs)[|Encode(cs[0])|..] == rest;
    }
  }

  // `p` is between two characters.
  predicate Boundary(s: seq<byte>, p: nat)
    decreases |s|
  {
    p == 0 || (CharLen(s) > 0 && p >= CharLen(s) && Boundary(s[CharLen(s)..], p - CharLen(s)))
  }

  lemma {:induction false} BoundaryIsValid(s: seq<byte>, p: nat)
    requires Utf8(s) && Boundary(s, p)
    ensures p <= |s| && Utf8(s[..p])
    decreases |s|
  {
    if p > 0 {
      var n := CharLen(s);
      BoundaryIsValid(s[n..], p - n);
      assert s[..p][n..] == s[n..][..p - n];
      assert CharLen(s[..p]) == n;
    }
  }

  // Past the first character, the back-off is that of the rest.
  lemma {:induction false} CutPastChar(s: seq<byte>, n: nat, keep: nat, cut: nat)
    requires n <= cut <= keep < |s| && !Continuation(s[n]) && n > 0
    ensures CutFrom(s, keep, cut) == n + CutFrom(s[n..], keep - n, cut - n)
    decreases cut
  {
    if cut > n && keep - cut < 3 && Continuation(s[cut]) { CutPastChar(s, n, keep, cut - 1); }
  }

  lemma {:induction false} CutInChar(s: seq<byte>, keep: nat, cut: nat)
    requires cut <= keep < |s| && keep < CharLen(s)
    ensures CutFrom(s, keep, cut) == 0
    decreases cut
  {
    if cut > 0 { CutInChar(s, keep, cut - 1); }
  }

  // The cut of valid UTF-8 is the last character boundary within the budget.
  lemma {:induction false} CutIsLastBoundary(s: seq<byte>, keep: nat)
    requires Utf8(s) && keep < |s|
    ensures Boundary(s, CutAt(s, keep)) && keep - 3 <= CutAt(s, keep) <= keep
    ensures forall p: nat :: Boundary(s, p) && p <= keep ==> p <= CutAt(s, keep)
    decreases |s|
  {
    var n := CharLen(s);
    CutBounds(s, keep, keep);
    if keep < n {
      CutInChar(s, keep, keep);
    } else {
      var rest := s[n..];
      assert CharLen(rest) > 0 && !Continuation(rest[0]) && rest[0] == s[n];
      CutPastChar(s, n, keep, keep);
      CutIsLastBoundary(rest, keep - n);
      forall p: nat | Boundary(s, p) && p <= keep ensures p <= CutAt(s, keep) {
        if p > 0 { assert Boundary(rest, p - n); }
      }
    }
  }

  // UTF-8 safety of the result: a cut stream that was valid stays valid before the marker, ends at
  // the largest character boundary within its share, and loses at most three bytes of it.
  lemma CutStreamIsValid(s: seq<byte>, budget: nat)
    requires Utf8(s) && budget < |s|
    ensures var c := CutAt(s, budget);
      && Keep(s, budget) == s[..c] + MARKER && Utf8(s[..c])
      && Boundary(s, c) && budget - 3 <= c <= budget
      && forall p: nat :: Boundary(s, p) && p <= budget ==> p <= c
  {
    CutIsLastBoundary(s, budget);
    BoundaryIsValid(s, CutAt(s, budget));
  }
}
