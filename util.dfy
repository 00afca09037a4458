/** `util.CutAny`, for the string instantiation of its type parameter. */
module Util {
  import opened GoStrings

  datatype CutAnyResult = CutAnyResult(before: string, after: string, ok: bool)

  /**
   * Cuts `b` at the first character that belongs to `chars`. `before` is
   * the text up to that character; `after`, however, is the WHOLE input
   * with its leading run of `chars` characters removed, not the text after
   * the cut.
   */
  function CutAny(b: string, chars: string): (r: CutAnyResult)
    ensures !r.ok <==> forall j :: 0 <= j < |b| ==> b[j] !in chars
    ensures !r.ok ==> r.before == b && r.after == []
    ensures r.ok ==> |r.before| < |b| && r.before == b[..|r.before|] && b[|r.before|] in chars
    ensures r.ok ==> forall j :: 0 <= j < |r.before| ==> r.before[j] !in chars
    ensures r.ok ==> |r.after| <= |b| && r.after == b[|b| - |r.after|..]
                     && (forall j :: 0 <= j < |b| - |r.after| ==> b[j] in chars)
                     && (r.after == [] || r.after[0] !in chars)
  {
    var i := IndexAny(b, chars);
    if i < 0 then CutAnyResult(b, [], false) else CutAnyResult(b[..i], TrimLeft(b, chars), true)
  }

  /** When the first match is past position 0, `after` is the whole input. */
  lemma CutAnyAfterIsInput(b: string, chars: string)
    requires CutAny(b, chars).ok && CutAny(b, chars).before != []
    ensures CutAny(b, chars).after == b
  {
    var r := CutAny(b, chars);
    assert b[0] == r.before[0] && b[0] !in chars;
  }

  /**
   * When the first match is at position 0, `before` is empty and `after`
   * is what follows the leading run of `chars` characters.
   */
  lemma CutAnyAtStart(b: string, chars: string)
    requires b != [] && b[0] in chars
    ensures CutAny(b, chars).ok && CutAny(b, chars).before == []
    ensures |CutAny(b, chars).after| < |b|
  {
  }
}
