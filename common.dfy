/** Vocabulary shared by the server and the client models: socket identities, the
    signalling payload, optional values, JavaScript's `||` defaulting on strings,
    insertion-ordered sets (a JavaScript `Set`) as duplicate-free sequences, and the
    decimal rendering a template literal gives an integer. */
module Common {

  /** A Socket.IO connection id (`socket.id`). */
  type SocketId = string

  datatype Option<T> = None | Some(value: T)

  /** A signalling payload as the browser builds it: a session description
      (`{type, sdp}`) or a serialised ICE candidate (`{candidate, ...}`). A field
      the object does not have is the empty string, which JavaScript treats as falsy. */
  datatype Signal = Signal(sdpType: string, sdp: string, candidate: string)

  /** `s || fallback` for a string that may be empty or missing. */
  function OrElse(s: string, fallback: string): string {
    if s == "" then fallback else s
  }

  /** No element occurs twice: the shape of a JavaScript `Set` read in insertion order. */
  predicate NoDup<T(==)>(s: seq<T>) {
    forall i, j :: 0 <= i < j < |s| ==> s[i] != s[j]
  }

  /** `Set.prototype.add`: a new element goes to the end, a present one stays where it is. */
  function Add<T(==)>(s: seq<T>, x: T): (r: seq<T>)
    ensures x in r && forall y :: y in r ==> y in s || y == x
    ensures s <= r
    ensures |r| == if x in s then |s| else |s| + 1
    ensures NoDup(s) ==> NoDup(r)
  {
    if x in s then s else s + [x]
  }

  /** `Set.prototype.delete`: drops `x` and keeps the others in their order. */
  function Remove<T(==)>(s: seq<T>, x: T): (r: seq<T>)
    ensures forall y :: y in r ==> y in s && y != x
    ensures forall y :: y in s && y != x ==> y in r
    ensures |r| <= |s|
    ensures NoDup(s) ==> NoDup(r)
    ensures x !in s ==> |r| == |s|
    ensures NoDup(s) && x in s ==> |r| == |s| - 1
  {
    if s == [] then []
    else if s[0] == x then
      assert NoDup(s) ==> x !in s[1..];
      Remove(s[1..], x)
    else
      var rest := Remove(s[1..], x);
      assert s[0] !in s[1..] ==> s[0] !in rest;
      [s[0]] + rest
  }

  /** Removing an element that is not there changes nothing. */
  lemma {:induction false} RemoveAbsent<T>(s: seq<T>, x: T)
    requires x !in s
    ensures Remove(s, x) == s
  {
    if s != [] {
      RemoveAbsent(s[1..], x);
    }
  }

  /** In a duplicate-free sequence, `Remove` cuts out the one occurrence of a present
      element and leaves everything before and after it in place. */
  lemma {:induction false} RemoveSplits<T>(s: seq<T>, x: T)
    requires NoDup(s) && x in s
    ensures exists k :: 0 <= k < |s| && s[k] == x && Remove(s, x) == s[..k] + s[k + 1..]
  {
    if s[0] == x {
      assert x !in s[1..];
      RemoveAbsent(s[1..], x);
      assert s[..0] + s[1..] == s[1..];
    } else {
      assert NoDup(s[1..]) && x in s[1..];
      RemoveSplits(s[1..], x);
      var tail := s[1..];
      var k :| 0 <= k < |tail| && tail[k] == x && Remove(tail, x) == tail[..k] + tail[k + 1..];
      assert Remove(s, x) == [s[0]] + Remove(tail, x);
      assert tail[..k] == s[1..k + 1] && tail[k + 1..] == s[k + 2..];
      assert [s[0]] + s[1..k + 1] == s[..k + 1];
      assert s[k + 1] == x && Remove(s, x) == s[..k + 1] + s[k + 1 + 1..];
    }
  }

  /** The first element left after a removal is the earliest-inserted element
      other than the removed one. */
  lemma RemoveFirst<T>(s: seq<T>, x: T)
    requires NoDup(s) && |Remove(s, x)| > 0
    ensures s[0] != x ==> Remove(s, x)[0] == s[0]
    ensures s[0] == x ==> |s| > 1 && Remove(s, x)[0] == s[1]
  {
    if s[0] == x {
      assert x !in s[1..];
      RemoveAbsent(s[1..], x);
    }
  }

  function DigitChar(d: nat): (c: char)
    requires d < 10
    ensures '0' <= c <= '9'
    ensures (c as int) - ('0' as int) == d
  {
    "0123456789"[d]
  }

  predicate AllDigits(s: string) {
    forall i :: 0 <= i < |s| ==> '0' <= s[i] <= '9'
  }

  /** The number a string of decimal digits denotes: the reference reading of a numeral. */
  function DigitsValue(s: string): nat
    requires AllDigits(s)
  {
    if s == [] then 0
    else DigitsValue(s[..|s| - 1]) * 10 + ((s[|s| - 1] as int) - ('0' as int))
  }

  /** `${n}` for a non-negative integer: its decimal digits, with no leading zero. */
  function NatToString(n: nat): (r: string)
    ensures |r| >= 1 && AllDigits(r)
    ensures |r| > 1 ==> r[0] != '0'
    ensures DigitsValue(r) == n
  {
    if n < 10 then [DigitChar(n)]
    else
      var r := NatToString(n / 10) + [DigitChar(n % 10)];
      assert r[..|r| - 1] == NatToString(n / 10);
      r
  }

  /** `${i}` for any integer: a minus sign before the digits of a negative one. */
  function IntToString(i: int): (r: string)
    ensures i >= 0 ==> r == NatToString(i)
    ensures i < 0 ==> r == "-" + NatToString(-i)
    ensures i >= 0 ==> AllDigits(r) && DigitsValue(r) == i
    ensures i < 0 ==> |r| >= 2 && r[0] == '-' && AllDigits(r[1..]) && DigitsValue(r[1..]) == -i
  {
    if i < 0 then "-" + NatToString(-i) else NatToString(i)
  }
}
