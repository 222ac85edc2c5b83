/** serial_parse_hex (main.cpp:338-395) over the bytes waiting in the
    serial receive buffer. Item k of n is read at offset 6k: '0', 'x' or
    'X', two characters, then ", " unless it is the last item, so n items
    consume 6n - 2 bytes. Serial.read() on an empty buffer gives -1, which is
    modelled by Read. */
module SerialHex {
  import opened Hex

  datatype ParseResult =
    | Parsed(values: seq<int>, rest: seq<bv8>) // true: the values, and what is left to read
    | Cancelled                                // CR or LF where an item should start: input cleared, false
    | BadForm                                  // bad_form(): input cleared and the program restarted

  /** Serial.read() of the byte at offset i. */
  function Read(input: seq<bv8>, i: nat): (c: int)
    ensures -1 <= c < 256
    ensures c == -1 <==> i >= |input|
  {
    if i < |input| then input[i] as int else -1
  }

  /** The framing checks of the first pass for item k. */
  predicate Framed(input: seq<bv8>, n: nat, k: nat)
  {
    && Read(input, 6 * k) == '0' as int
    && ToLower(Read(input, 6 * k + 1)) == 'x' as int
    && (k + 1 == n || (Read(input, 6 * k + 4) == ',' as int && Read(input, 6 * k + 5) == ' ' as int))
  }

  /** The two digit characters of item k, as hexstr_to_int receives them. */
  function Digits(input: seq<bv8>, k: nat): seq<int>
  {
    [Read(input, 6 * k + 2), Read(input, 6 * k + 3)]
  }

  /** The first item from k on that the first pass rejects, or n. */
  function FirstUnframed(input: seq<bv8>, n: nat, k: nat): (j: nat)
    requires k <= n
    ensures k <= j <= n
    ensures forall i :: k <= i < j ==> Framed(input, n, i)
    ensures j < n ==> !Framed(input, n, j)
    decreases n - k
  {
    if k == n then n
    else if Framed(input, n, k) then FirstUnframed(input, n, k + 1)
    else k
  }

  /** Bytes the parser takes off the buffer when every item is framed. */
  function Consumed(n: nat): nat
  {
    if n == 0 then 0 else 6 * n - 2
  }

  /** The values the second pass converts. */
  function Values(input: seq<bv8>, n: nat): (vs: seq<int>)
    ensures |vs| == n
    ensures forall k :: 0 <= k < n ==> vs[k] == HexStrToInt(Digits(input, k))
  {
    if n == 0 then [] else Values(input, n - 1) + [HexStrToInt(Digits(input, n - 1))]
  }

  /** What serial_parse_hex(result, n) does with the buffer contents. */
  function ParseSpec(input: seq<bv8>, n: nat): ParseResult
  {
    var j := FirstUnframed(input, n, 0);
    if j < n then
      (if Read(input, 6 * j) == 10 || Read(input, 6 * j) == 13 then Cancelled else BadForm)
    else if exists k :: 0 <= k < n && HexStrToInt(Digits(input, k)) == -1 then BadForm
    else if Consumed(n) <= |input| then Parsed(Values(input, n), input[Consumed(n)..])
    else Parsed(Values(input, n), [])
  }

  lemma {:induction false} FirstUnframedIs(input: seq<bv8>, n: nat, k: nat, j: nat)
    requires k <= j <= n
    requires forall i :: k <= i < j ==> Framed(input, n, i)
    requires j < n ==> !Framed(input, n, j)
    ensures FirstUnframed(input, n, k) == j
    decreases j - k
  {
    if k < j {
      FirstUnframedIs(input, n, k + 1, j);
    }
  }

  /** When every item is framed and every digit pair converts, the parse
      succeeds with the converted values and leaves the rest of the buffer. */
  lemma ParseSpecWellFormed(input: seq<bv8>, n: nat)
    requires forall k :: 0 <= k < n ==> Framed(input, n, k)
    requires forall k :: 0 <= k < n ==> HexStrToInt(Digits(input, k)) != -1
    requires Consumed(n) <= |input|
    ensures ParseSpec(input, n) == Parsed(Values(input, n), input[Consumed(n)..])
  {
    FirstUnframedIs(input, n, 0, n);
  }

  /** serial_parse_hex as the sketch runs it: a framing pass that reads the
      buffer byte by byte and collects the digit pairs, then a conversion
      pass. The result says whether it returned true, cleared the input, or
      went to bad_form. */
  method ParseHex(input: seq<bv8>, n: nat) returns (r: ParseResult)
    ensures r == ParseSpec(input, n)
  {
    var pos: nat := 0;
    var hexstr: seq<seq<int>> := [];
    var x: nat := 0;
    while x < n
      invariant x <= n
      invariant pos == if x == n then Consumed(n) else 6 * x
      invariant |hexstr| == x
      invariant forall k :: 0 <= k < x ==> hexstr[k] == Digits(input, k)
      invariant forall k :: 0 <= k < x ==> Framed(input, n, k)
    {
      var first := Read(input, pos);
      pos := pos + 1;
      if first != '0' as int {
        FirstUnframedIs(input, n, 0, x);
        if first == 10 || first == 13 {
          return Cancelled;
        }
        return BadForm;
      }
      var xc := Read(input, pos);
      pos := pos + 1;
      if ToLower(xc) != 'x' as int {
        FirstUnframedIs(input, n, 0, x);
        return BadForm;
      }
      var hi := Read(input, pos);
      var lo := Read(input, pos + 1);
      pos := pos + 2;
      hexstr := hexstr + [[hi, lo]];
      if x < n - 1 {
        var comma := Read(input, pos);
        pos := pos + 1;
        if comma != ',' as int {
          FirstUnframedIs(input, n, 0, x);
          return BadForm;
        }
        var space := Read(input, pos);
        pos := pos + 1;
        if space != ' ' as int {
          FirstUnframedIs(input, n, 0, x);
          return BadForm;
        }
      }
      x := x + 1;
    }
    FirstUnframedIs(input, n, 0, n);
    var result: seq<int> := [];
    for k := 0 to n
      invariant |result| == k
      invariant forall i :: 0 <= i < k ==> result[i] == HexStrToInt(Digits(input, i)) && result[i] != -1
    {
      var v := HexStrToInt(hexstr[k]);
      result := result + [v];
      if v == -1 {
        return BadForm;
      }
    }
    assert result == Values(input, n);
    if pos <= |input| {
      r := Parsed(result, input[pos..]);
    } else {
      r := Parsed(result, []);
    }
  }

  // ---- properties ----

  /** A successful parse yields n bytes, each 0..255. */
  lemma ParsedValuesAreBytes(input: seq<bv8>, n: nat)
    requires ParseSpec(input, n).Parsed?
    ensures |ParseSpec(input, n).values| == n
    ensures forall k :: 0 <= k < n ==> 0 <= ParseSpec(input, n).values[k] < 256
  {
    var vs := ParseSpec(input, n).values;
    forall k | 0 <= k < n
      ensures 0 <= vs[k] < 256
    {
      HexStrToIntSpec(Digits(input, k));
    }
  }

  /** Cancelled happens exactly when the first item the framing pass rejects
      starts with CR or LF. */
  lemma CancelledIff(input: seq<bv8>, n: nat)
    ensures ParseSpec(input, n).Cancelled? <==>
      var j := FirstUnframed(input, n, 0);
      j < n && (Read(input, 6 * j) == 10 || Read(input, 6 * j) == 13)
  {
  }

  /** A bare line end typed instead of a code cancels, for any arity. */
  lemma LineEndCancels(input: seq<bv8>, n: nat)
    requires n > 0 && |input| > 0 && (input[0] == 10 || input[0] == 13)
    ensures ParseSpec(input, n) == Cancelled
  {
    assert !Framed(input, n, 0);
    FirstUnframedIs(input, n, 0, 0);
  }

  /** An empty buffer is not a code: bad_form. */
  lemma EmptyInputIsBadForm(n: nat)
    requires n > 0
    ensures ParseSpec([], n) == BadForm
  {
    assert !Framed([], n, 0);
    FirstUnframedIs([], n, 0, 0);
  }
}
