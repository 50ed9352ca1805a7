/** PurePath.name's .suffix and .stem in Python's pathlib. */
module Paths {

  /** name.rfind('.'): the last position of '.', or -1. */
  function LastDot(name: string): (i: int)
    ensures -1 <= i < |name|
    ensures i >= 0 ==> name[i] == '.'
    ensures forall j :: i < j < |name| ==> name[j] != '.'
  {
    if name == [] then -1
    else if name[|name| - 1] == '.' then |name| - 1
    else LastDot(name[..|name| - 1])
  }

  /** A name has a suffix when its last dot is neither its first nor its last character. */
  predicate HasSuffix(name: string)
  {
    0 < LastDot(name) < |name| - 1
  }

  function Suffix(name: string): string
  {
    if HasSuffix(name) then name[LastDot(name)..] else ""
  }

  function Stem(name: string): string
  {
    if HasSuffix(name) then name[..LastDot(name)] else name
  }

  lemma StemSuffix(name: string)
    ensures Stem(name) + Suffix(name) == name
  {
  }

  /** A non-empty suffix is a dot followed by at least one character and no further dot. */
  lemma SuffixShape(name: string)
    ensures Suffix(name) == [] || (|Suffix(name)| >= 2 && Suffix(name)[0] == '.' && '.' !in Suffix(name)[1..])
    ensures Suffix(name) != [] ==> Stem(name) != []
  {
  }

  /** Joining a non-empty stem and a suffix gives a name whose stem and suffix are those two. */
  lemma {:induction false} JoinStemSuffix(stem: string, ext: string)
    requires stem != [] && |ext| >= 2 && ext[0] == '.' && '.' !in ext[1..]
    ensures Suffix(stem + ext) == ext && Stem(stem + ext) == stem
  {
    var name := stem + ext;
    LastDotAfter(stem, ext);
  }

  lemma {:induction false} LastDotAfter(stem: string, ext: string)
    requires ext != [] && ext[0] == '.' && '.' !in ext[1..]
    ensures LastDot(stem + ext) == |stem|
    decreases |ext|
  {
    var name := stem + ext;
    if |ext| > 1 {
      assert name[|name| - 1] == ext[|ext| - 1] && ext[|ext| - 1] in ext[1..];
      assert name[..|name| - 1] == stem + ext[..|ext| - 1];
      assert ext[..|ext| - 1][1..] == ext[1..|ext| - 1];
      LastDotAfter(stem, ext[..|ext| - 1]);
    }
  }
}
