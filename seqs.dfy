/**
 * Searching and splitting sequences, as Python's `bytes.split(sep, 1)`
 * does: the sequence is cut at the FIRST occurrence of the separator only.
 */
module Seqs {

  datatype Option<+T> = None | Some(value: T)

  /** The index of the first occurrence of `x` in `s`, if there is one. */
  function IndexOf<T(==)>(s: seq<T>, x: T): (r: Option<nat>)
    ensures r.None? <==> x !in s
    ensures r.Some? ==> r.value < |s| && s[r.value] == x && x !in s[..r.value]
  {
    if |s| == 0 then None
    else if s[0] == x then Some(0)
    else
      match IndexOf(s[1..], x)
      case None => None
      case Some(i) =>
        assert s[..i + 1] == [s[0]] + s[1..][..i];
        Some(i + 1)
  }

  /**
   * `s.split(sep, 1)` unpacked into two parts: the part before the first
   * `sep` and everything after it. `None` when `sep` does not occur, which
   * is where the two-way unpacking of the Python code fails.
   */
  function SplitFirst<T(==)>(s: seq<T>, sep: T): (r: Option<(seq<T>, seq<T>)>)
    ensures r.None? <==> sep !in s
    ensures r.Some? ==> s == r.value.0 + [sep] + r.value.1 && sep !in r.value.0
  {
    match IndexOf(s, sep)
    case None => None
    case Some(i) =>
      assert s == s[..i] + [sep] + s[i + 1..];
      Some((s[..i], s[i + 1..]))
  }

  /**
   * The split is unique: whenever `s` is `head + [sep] + tail` with no `sep`
   * in `head`, splitting gives back exactly `head` and `tail`, whatever
   * `tail` holds (later separators included).
   */
  lemma SplitFirstOfJoin<T>(head: seq<T>, sep: T, tail: seq<T>)
    requires sep !in head
    ensures SplitFirst(head + [sep] + tail, sep) == Some((head, tail))
  {
    var s := head + [sep] + tail;
    assert s[|head|] == sep;
    var i := IndexOf(s, sep).value;
    assert i <= |head| by {
      assert sep !in s[..i];
      assert s[..i] != [] ==> s[..i][0] == s[0];
    }
    assert s[..i] == head;
    assert s[i + 1..] == tail;
  }
}
