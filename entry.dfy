/**
 * Word entries produced by the OCR collaborator, and the Java `int`
 * arithmetic the grouper performs on their coordinates.
 */
module TextEntry {

  const INT_MIN: int := -0x8000_0000
  const INT_MAX: int := 0x7fff_ffff
  const TWO_32: int := 0x1_0000_0000

  /** A Java `int`. */
  type Int32 = v: int | INT_MIN <= v <= INT_MAX

  /** Java's two's-complement wrap-around of an exact integer result. */
  function Wrap32(v: int): (r: Int32)
    ensures INT_MIN <= v <= INT_MAX ==> r == v
    ensures INT_MAX < v <= INT_MAX + TWO_32 ==> r == v - TWO_32
    ensures INT_MIN - TWO_32 <= v < INT_MIN ==> r == v + TWO_32
  {
    (v - INT_MIN) % TWO_32 + INT_MIN
  }

  /**
   * One recognised word: its text and the lower-left corner of its
   * bounding box (`ShoppingListTextEntry.create(text, x, y)`, read back
   * through `getText`, `getLowerXBoundary` and `getLowerYBoundary`).
   */
  datatype Entry = Entry(text: string, x: Int32, y: Int32)
}
