/** Short random identifiers (utils/sid.go): each random byte picks a
    character of a 31-character alphabet without look-alike characters. */
module ShortId {
  import opened Wrappers

  type Byte = b: int | 0 <= b < 256

  /** The alphabet: digits and lower-case letters without 0, 1, i, l and o. */
  const Lexicon: string := "23456789abcdefghjkmnpqrstuvwxyz"

  /** The alphabet has 31 characters, all between '2' and 'z'. */
  lemma LexiconShape()
    ensures |Lexicon| == 31
    ensures forall k :: 0 <= k < |Lexicon| ==> '2' <= Lexicon[k] <= 'z'
  {
  }

  /** The look-alikes 0, 1, i, l and o are not in the alphabet. */
  lemma LexiconExcludesLookAlikes()
    ensures '0' !in Lexicon && '1' !in Lexicon
    ensures 'i' !in Lexicon && 'l' !in Lexicon && 'o' !in Lexicon
  {
    LexiconShape();
  }

  /** No character occurs twice, so the 31 residues of a byte give 31
      different characters. */
  lemma LexiconDistinct()
    ensures forall i, j :: 0 <= i < j < |Lexicon| ==> Lexicon[i] != Lexicon[j]
  {
    assert forall k :: 0 <= k < |Lexicon| - 1 ==> Lexicon[k] < Lexicon[k + 1];
    Ascending(Lexicon);
  }

  /** A string whose neighbours ascend has all its characters distinct. */
  lemma {:induction false} Ascending(s: string)
    requires forall k :: 0 <= k < |s| - 1 ==> s[k] < s[k + 1]
    ensures forall i, j :: 0 <= i < j < |s| ==> s[i] < s[j]
    decreases |s|
  {
    if |s| > 1 {
      Ascending(s[1..]);
      assert forall j :: 1 <= j < |s| ==> s[j] == s[1..][j - 1];
      assert forall j :: 1 < j < |s| ==> s[1] < s[j];
    }
  }

  /** The message of the panic `make([]byte, size)` raises for a negative size. */
  const NegativeSizePanic: string := "runtime error: makeslice: len out of range"

  /** `Sid(size)`. `entropy` stands for what `crypto/rand.Read` gives: either
      `size` random bytes or the error that makes `Sid` panic. Both panics,
      a negative size (in `make`, before any random byte is read) and a
      failing random source, come back here as `Err`. */
  method Sid(size: int, entropy: Result<seq<Byte>, string>) returns (id: Result<string, string>)
    requires size >= 0 && entropy.Ok? ==> |entropy.value| == size
    ensures size < 0 ==> id == Err(NegativeSizePanic)
    ensures size >= 0 && entropy.Err? ==> id == Err(entropy.error)
    ensures size >= 0 && entropy.Ok? ==> id.Ok? && |id.value| == size
    ensures size >= 0 && entropy.Ok? ==>
              forall i :: 0 <= i < size ==> id.value[i] == Lexicon[entropy.value[i] % |Lexicon|]
    ensures id.Ok? ==> forall i :: 0 <= i < |id.value| ==> id.value[i] in Lexicon
  {
    if size < 0 {
      return Err(NegativeSizePanic);
    }
    LexiconShape();
    match entropy {
      case Err(e) =>
        id := Err(e);
      case Ok(random) =>
        var sid := new Byte[size](i requires 0 <= i < size => random[i]);
        var i := 0;
        while i < size
          invariant 0 <= i <= size
          invariant forall j :: 0 <= j < i ==> sid[j] == Lexicon[random[j] % |Lexicon|] as int
          invariant forall j :: i <= j < size ==> sid[j] == random[j]
        {
          var index := sid[i] % |Lexicon|;
          sid[i] := Lexicon[index] as int;
          i := i + 1;
        }
        var bytes := sid[..];
        id := Ok(seq(size, j requires 0 <= j < size => bytes[j] as char));
        assert forall j :: 0 <= j < size ==> id.value[j] == Lexicon[random[j] % |Lexicon|];
    }
  }

}
