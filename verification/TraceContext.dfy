/** Trace paths and the node id read back out of them, in `tcp-variants-comparison.cc`. */
module TraceContext {
  import opened Words

  datatype Option<T> = None | Some(value: T)

  /** What `find_first_of` returns when there is nothing to find. */
  const NPOS: nat := TWO_64 - 1

  function FindFirstOf(s: string, c: char, from: nat): nat
    decreases |s| - from
  {
    if from >= |s| then NPOS else if s[from] == c then from else FindFirstOf(s, c, from + 1)
  }

  /** `substr`, which throws when it starts past the end. */
  function Substr(s: string, pos: nat, count: nat): Option<string>
  {
    if pos > |s| then None
    else if pos + count <= |s| then Some(s[pos..pos + count])
    else Some(s[pos..])
  }

  predicate IsDigit(c: char) { '0' <= c <= '9' }

  function DigitOf(c: char): nat
    requires IsDigit(c)
  {
    (c as int - '0' as int) as nat
  }

  function CharOf(d: nat): (c: char)
    requires d < 10
    ensures IsDigit(c) && DigitOf(c) == d
  {
    ('0' as int + d) as char
  }

  /** How many digits `s` starts with. */
  function DigitCount(s: string): (n: nat)
    ensures n <= |s| && forall i :: 0 <= i < n ==> IsDigit(s[i])
  {
    if s != [] && IsDigit(s[0]) then 1 + DigitCount(s[1..]) else 0
  }

  function Value(s: string): nat
    requires forall i :: 0 <= i < |s| ==> IsDigit(s[i])
  {
    if s == [] then 0 else 10 * Value(s[..|s| - 1]) + DigitOf(s[|s| - 1])
  }

  /** `stoul` on a text that starts with its digits: it throws without digits or past 64 bits. */
  function Stoul(s: string): Option<nat>
  {
    var n := DigitCount(s);
    if n == 0 || Value(s[..n]) >= TWO_64 then None else Some(Value(s[..n]))
  }

  /** Positions wrap like `size_t`; the result is cut to 32 bits. */
  function GetNodeIdFromContext(context: string): Option<nat>
  {
    var n1 := FindFirstOf(context, '/', 1);
    var from := (n1 + 1) % TWO_64;
    var n2 := FindFirstOf(context, '/', from);
    var count := (n2 + TWO_64 - n1 - 1) % TWO_64;
    match Substr(context, from, count)
    case None => None
    case Some(text) =>
      match Stoul(text)
      case None => None
      case Some(id) => Some(id % TWO_32)
  }

  /** `std::to_string`. */
  function ToString(n: nat): (s: string)
    ensures s != [] && forall i :: 0 <= i < |s| ==> IsDigit(s[i])
  {
    if n < 10 then [CharOf(n)] else ToString(n / 10) + [CharOf(n % 10)]
  }

  function TracePath(nodeId: nat, tail: string): string
  {
    "/NodeList/" + ToString(nodeId) + tail
  }

  lemma {:induction false} ValueOfToString(n: nat)
    ensures Value(ToString(n)) == n
  {
    if n < 10 {
      assert ToString(n)[..0] == [];
    } else {
      ValueOfToString(n / 10);
      assert ToString(n)[..|ToString(n)| - 1] == ToString(n / 10);
    }
  }

  lemma {:induction false} FindsAt(s: string, c: char, from: nat, k: nat)
    requires from <= k < |s| && s[k] == c && forall i :: from <= i < k ==> s[i] != c
    ensures FindFirstOf(s, c, from) == k
    decreases k - from
  {
    if from < k { FindsAt(s, c, from + 1, k); }
  }

  lemma {:induction false} AllDigits(s: string)
    requires forall i :: 0 <= i < |s| ==> IsDigit(s[i])
    ensures DigitCount(s) == |s|
  {
    if s != [] { AllDigits(s[1..]); }
  }

  lemma SlashPositions(id: string, tail: string)
    requires tail != [] && tail[0] == '/' && forall i :: 0 <= i < |id| ==> IsDigit(id[i])
    ensures var path := "/NodeList/" + id + tail;
            && FindFirstOf(path, '/', 1) == 9
            && FindFirstOf(path, '/', 10) == 10 + |id|
            && path[10..10 + |id|] == id
  {
    var path := "/NodeList/" + id + tail;
    var n := 10 + |id|;
    assert path[..10] == "/NodeList/";
    forall i | 1 <= i < 9 ensures path[i] != '/' {
      assert path[i] == path[..10][i];
    }
    assert path[9] == path[..10][9];
    FindsAt(path, '/', 1, 9);
    forall i | 10 <= i < n ensures path[i] != '/' {
      assert path[i] == id[i - 10];
    }
    FindsAt(path, '/', 10, n);
  }

  lemma StoulOfToString(n: nat)
    requires n < TWO_64
    ensures Stoul(ToString(n)) == Some(n)
  {
    AllDigits(ToString(n));
    assert ToString(n)[..|ToString(n)|] == ToString(n);
    ValueOfToString(n);
  }

  lemma ExamplePath()
    ensures TracePath(12, "/X") == "/NodeList/12/X"
  {
    assert ToString(1) == "1" && ToString(12) == ToString(1) + "2";
    assert "/NodeList/" + "12" + "/X" == "/NodeList/12/X";
  }

  /** An id is cut to 32 bits when it is read back. */
  lemma NodeIdCut(nodeId: nat, tail: string)
    requires nodeId < TWO_64 && tail != [] && tail[0] == '/' && |TracePath(nodeId, tail)| < NPOS
    ensures GetNodeIdFromContext(TracePath(nodeId, tail)) == Some(nodeId % 0x1_0000_0000)
  {
    hide FindFirstOf, Stoul, ToString;
    var id := ToString(nodeId);
    SlashPositions(id, tail);
    StoulOfToString(nodeId);
    assert (10 + |id| + TWO_64 - 9 - 1) % TWO_64 == |id|;
  }

  /** Reading the node id out of the trace path built from it gives it back, for every 32-bit id and
      whatever follows the id. */
  lemma NodeIdRoundTrip(nodeId: nat, tail: string)
    requires nodeId < TWO_32 && tail != [] && tail[0] == '/' && |TracePath(nodeId, tail)| < NPOS
    ensures GetNodeIdFromContext(TracePath(nodeId, tail)) == Some(nodeId)
  {
    hide GetNodeIdFromContext, TracePath;
    NodeIdCut(nodeId, tail);
  }
}
