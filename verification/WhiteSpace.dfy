/** What Python's `str.isspace`, `strip` and `splitlines` go by, as code points. */
module WhiteSpace {

  predicate IsSpace(c: int) {
    || 0x09 <= c <= 0x0D || 0x1C <= c <= 0x20 || c == 0x85 || c == 0xA0 || c == 0x1680
    || 0x2000 <= c <= 0x200A || c in {0x2028, 0x2029, 0x202F, 0x205F, 0x3000}
  }

  /** Where `splitlines` splits. */
  predicate IsLineBoundary(c: int) {
    0x0A <= c <= 0x0D || 0x1C <= c <= 0x1E || c in {0x85, 0x2028, 0x2029}
  }

  /** The table of `splitlines`; all of it is white space, and so is what the second table adds. */
  lemma BoundaryTable(c: int)
    ensures IsLineBoundary(c) <==> c in {0x0A, 0x0B, 0x0C, 0x0D, 0x1C, 0x1D, 0x1E, 0x85, 0x2028, 0x2029}
    ensures IsLineBoundary(c) ==> IsSpace(c)
    ensures IsSpace(c) && !IsLineBoundary(c) <==>
            c in {0x09, 0x1F, 0x20, 0xA0, 0x1680, 0x202F, 0x205F, 0x3000} || 0x2000 <= c <= 0x200A
  {
  }
}
