/**
 * `Chain::proof_of_work`: hash the header, parse the first `difficulty`
 * characters of the digest as a `u32`, and increment the nonce until that
 * parse yields `Ok(0)`. A prefix of non-zero digits (`Ok(v)`, v != 0) and a
 * prefix that does not parse (`Err`) are both retried, so the loop stops
 * exactly when the prefix is one or more '0' characters.
 */
module Pow {
  import opened HexFormat
  import opened Records

  const U32Max: int := 0xFFFF_FFFF

  /** The error kinds of Rust's `u32::from_str`. */
  datatype ParseError = Empty | InvalidDigit | PosOverflow

  datatype Parsed = Ok(value: nat) | Err(error: ParseError)

  predicate IsDecimal(c: char) {
    '0' <= c <= '9'
  }

  /** `str::parse::<u32>`: an optional '+', then decimal digits read left to
      right; the first non-digit or the first overflow past `u32::MAX`
      is an error. */
  function ParseU32(s: string): (r: Parsed)
    ensures r.Ok? ==> r.value <= U32Max
  {
    if s == [] then Err(Empty)
    else if s == "+" || s == "-" then Err(InvalidDigit)
    else ParseDigits(if s[0] == '+' then s[1..] else s, 0)
  }

  function ParseDigits(s: string, acc: nat): (r: Parsed)
    requires acc <= U32Max
    ensures r.Ok? ==> r.value <= U32Max
    decreases |s|
  {
    if s == [] then Ok(acc)
    else if !IsDecimal(s[0]) then Err(InvalidDigit)
    else
      var next := acc * 10 + (s[0] as int - '0' as int);
      if next > U32Max then Err(PosOverflow) else ParseDigits(s[1..], next)
  }

  /** The digits after the accumulated value parse to zero exactly when the
      value so far is zero and every remaining character is '0'. */
  lemma {:induction false} ParseDigitsZero(s: string, acc: nat)
    requires acc <= U32Max
    ensures ParseDigits(s, acc) == Ok(0) <==> acc == 0 && AllZeroChars(s)
    decreases |s|
  {
    if s != [] && IsDecimal(s[0]) {
      var next := acc * 10 + (s[0] as int - '0' as int);
      if next <= U32Max {
        ParseDigitsZero(s[1..], next);
        assert AllZeroChars(s) <==> s[0] == '0' && AllZeroChars(s[1..]) by {
          assert forall i | 1 <= i < |s| :: s[i] == s[1..][i - 1];
        }
      }
    }
  }

  /** On a string without a sign, `parse::<u32>()` is `Ok(0)` exactly when
      the string is non-empty and made of '0' characters only. */
  lemma {:induction false} ParseU32Zero(s: string)
    requires s == [] || s[0] != '+'
    ensures ParseU32(s) == Ok(0) <==> |s| >= 1 && AllZeroChars(s)
  {
    if s != [] && s != "-" {
      ParseDigitsZero(s, 0);
    }
  }

  /** Two prefixes the sealer rejects for different reasons: "123" parses
      to a non-zero value, "1a0" does not parse. */
  lemma {:induction false} ParseExamples()
    ensures ParseU32("123") == Ok(123)
    ensures ParseU32("1a0") == Err(InvalidDigit)
    ensures ParseU32("") == Err(Empty)
  {
    assert "123"[1..] == "23" && "23"[1..] == "3" && "3"[1..] == "";
    assert ParseDigits("123", 0) == ParseDigits("23", 1);
    assert ParseDigits("23", 1) == ParseDigits("3", 12);
    assert ParseDigits("3", 12) == ParseDigits("", 123);
    assert "1a0"[1..] == "a0";
    assert ParseDigits("1a0", 0) == ParseDigits("a0", 1);
  }

  /** The sealing condition: a non-empty prefix of length `k` of '0's. */
  predicate Seals(d: string, k: nat) {
    1 <= k <= |d| && AllZeroChars(d[..k])
  }

  /** The digest the sealer computes when the nonce is `n`. */
  function AttemptDigest(sha: Sha, h: Header, n: nat): string {
    Hash(sha, HeaderItem(h.(nonce := n)))
  }

  /** Nonce `n` seals `h`, and every attempt from `h.nonce` up to `n` takes
      the prefix slice without going out of range. */
  ghost predicate SealsAt(sha: Sha, h: Header, n: nat) {
    && h.nonce <= n
    && Seals(AttemptDigest(sha, h, n), h.difficulty)
    && forall m | h.nonce <= m < n :: h.difficulty <= |AttemptDigest(sha, h, m)|
  }

  /** Some nonce at or above the current one seals `h`: the search ends. */
  ghost predicate Sealable(sha: Sha, h: Header) {
    exists n: nat :: SealsAt(sha, h, n)
  }

  /** `proof_of_work`. The source mutates `header.nonce` in place; here the
      header goes in and the sealed header comes out. */
  method ProofOfWork(sha: Sha, header: Header) returns (sealed: Header)
    requires Sealable(sha, header)
    ensures sealed == header.(nonce := sealed.nonce)
    ensures sealed.nonce >= header.nonce
    ensures Seals(Hash(sha, HeaderItem(sealed)), sealed.difficulty)
    ensures forall n | header.nonce <= n < sealed.nonce ::
      !Seals(AttemptDigest(sha, header, n), header.difficulty)
  {
    ghost var bound: nat :| SealsAt(sha, header, bound);
    var h := header;
    while true
      invariant h == header.(nonce := h.nonce)
      invariant header.nonce <= h.nonce <= bound
      invariant forall n | header.nonce <= n < h.nonce ::
        !Seals(AttemptDigest(sha, header, n), header.difficulty)
      decreases bound - h.nonce
    {
      var hash := Hash(sha, HeaderItem(h));
      assert hash == AttemptDigest(sha, header, h.nonce);
      var slice := hash[..h.difficulty];
      HashShape(sha, HeaderItem(h));
      assert slice == [] || slice[0] != '+';
      ParseU32Zero(slice);
      match ParseU32(slice) {
        case Ok(val) =>
          if val != 0 {
            h := h.(nonce := h.nonce + 1);
          } else {
            break;
          }
        case Err(_) =>
          h := h.(nonce := h.nonce + 1);
      }
    }
    sealed := h;
  }

  /** Difficulty 0 never seals: the empty prefix does not parse, so the
      source loops forever. */
  lemma {:induction false} ZeroDifficultyUnsealable(sha: Sha, h: Header)
    requires h.difficulty == 0
    ensures !Sealable(sha, h)
  {
  }

  /** With 32-byte digests every rendering has at least 32 characters, so a
      difficulty of at most 32 never slices out of range. */
  lemma {:induction false} SliceInRange(sha: Sha, h: Header, n: nat)
    requires Sha256Width(sha)
    requires h.difficulty <= 32
    ensures h.difficulty <= |AttemptDigest(sha, h, n)|
  {
    HashShape(sha, HeaderItem(h.(nonce := n)));
  }

  /** Hence, for such digests, any nonce whose digest has the zero prefix
      ends the search. */
  lemma {:induction false} SealableFromWitness(sha: Sha, h: Header, n: nat)
    requires Sha256Width(sha)
    requires h.difficulty <= 32
    requires h.nonce <= n && Seals(AttemptDigest(sha, h, n), h.difficulty)
    ensures Sealable(sha, h)
  {
    forall m | h.nonce <= m < n
      ensures h.difficulty <= |AttemptDigest(sha, h, m)|
    {
      SliceInRange(sha, h, m);
    }
    assert SealsAt(sha, h, n);
  }
}
