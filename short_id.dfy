/**
  The short identifier generator of app/routes.py: `_generate_short_id(k)`
  joins `k` characters chosen by `random.choices` from the 62-character
  alphabet `string.ascii_letters + string.digits`.

  Randomness is not modelled: the `k` choices are a parameter (`picks`), the
  i-th of which selects the character at position `picks[i] % 62` of the
  alphabet. The model states what the callers rely on (the length and the
  character set), and that every such string is one the generator can produce.
 */
module ShortId {
  import opened PyText

  /** Length of every identifier the handler asks for: `_generate_short_id(6)`. */
  const ShortIdLength: nat := 6

  /** `range(7)`: the number of candidates the handler tries before giving up. */
  const MaxAttempts: nat := 7

  /** n consecutive characters starting at `first`, as in "abc...z". */
  function CharRange(first: char, n: nat): (r: string)
    requires first as int + n <= 0xD800
    ensures |r| == n
    ensures forall i | 0 <= i < n :: r[i] as int == first as int + i
  {
    seq(n, i requires 0 <= i < n => (first as int + i) as char)
  }

  /** `string.ascii_letters + string.digits`, in that order. */
  const Alphabet: string := CharRange('a', 26) + CharRange('A', 26) + CharRange('0', 10)

  /** The alphabet holds 62 distinct characters, exactly the ASCII letters and digits. */
  lemma AlphabetIsAlnum()
    ensures |Alphabet| == 62
    ensures forall i, j | 0 <= i < j < |Alphabet| :: Alphabet[i] != Alphabet[j]
    ensures forall c :: c in Alphabet <==> IsAsciiAlnum(c)
  {
    forall c | IsAsciiAlnum(c) ensures c in Alphabet {
      assert Alphabet[AlphabetIndex(c)] == c;
    }
  }

  /** The position of an ASCII letter or digit in the alphabet. */
  function AlphabetIndex(c: char): (k: nat)
    requires IsAsciiAlnum(c)
    ensures k < |Alphabet| && Alphabet[k] == c
  {
    if 'a' <= c <= 'z' then c as int - 'a' as int
    else if 'A' <= c <= 'Z' then 26 + (c as int - 'A' as int)
    else 52 + (c as int - '0' as int)
  }

  /** `_generate_short_id(k)` with `picks` standing for the `k` random choices. */
  function GenerateShortId(k: nat, picks: seq<nat>): (id: string)
    requires |picks| == k
    ensures |id| == k
    ensures IsAsciiAlnumString(id)
    ensures forall i | 0 <= i < k :: id[i] == Alphabet[picks[i] % |Alphabet|]
  {
    if k == 0 then []
    else
      AlphabetIsAlnum();
      GenerateShortId(k - 1, picks[..k - 1]) + [Alphabet[picks[k - 1] % |Alphabet|]]
  }

  /** The choices that make the generator produce `id`. */
  function PicksFor(id: string): (picks: seq<nat>)
    requires IsAsciiAlnumString(id)
    ensures |picks| == |id|
    ensures forall i | 0 <= i < |id| :: picks[i] < |Alphabet| && Alphabet[picks[i]] == id[i]
  {
    seq(|id|, i requires 0 <= i < |id| => AlphabetIndex(id[i]))
  }

  lemma ModOfSmaller(a: nat, n: nat)
    requires a < n
    ensures a % n == a
  {
  }

  /**
    The generator reaches every string of letters and digits: each one is the
    result of some choices. So "length k, letters and digits only" is exactly
    the set of identifiers it can return.
   */
  lemma GenerateShortIdReachesEveryAlnumString(id: string)
    requires IsAsciiAlnumString(id)
    ensures GenerateShortId(|id|, PicksFor(id)) == id
  {
    var picks := PicksFor(id);
    var g := GenerateShortId(|id|, picks);
    forall i | 0 <= i < |id| ensures g[i] == id[i] {
      ModOfSmaller(picks[i], |Alphabet|);
    }
  }
}
