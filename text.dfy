/** String and unit helpers of the frontend. */
module Text {

  const SecToMs := 1000
  const MinToMs := 60 * SecToMs
  const HoursToMs := 60 * MinToMs

  /** Hours converted to milliseconds: a whole number of hours, 3,600,000 ms each. */
  function HoursToMilliseconds(hours: int): (ms: int)
    ensures ms % 3_600_000 == 0
    ensures ms / 3_600_000 == hours
  {
    hours * HoursToMs
  }

  const Ellipsis := "..."

  /**
   * Shortens a string longer than `length` to its first `length - 3`
   * characters followed by "...", so that it is exactly `length` long; with
   * `length` below 3 the result is "..." alone. A string that fits is
   * returned as it is.
   */
  function CullText(str: string, length: int): (r: string)
    ensures |str| <= length ==> r == str
    ensures |str| > length ==>
              && |r| == (if length < 3 then 3 else length)
              && r[|r| - 3..] == Ellipsis
              && r[..|r| - 3] == str[..|r| - 3]
  {
    if |str| > length then
      var end := if length - 3 < 0 then 0 else length - 3;
      str[..end] + Ellipsis
    else str
  }

  /**
   * Culling a culled string changes nothing more, for every length: below 3
   * the first cull already gives "..." alone, which the second leaves as it is.
   */
  lemma CullTextIdempotent(str: string, length: int)
    ensures CullText(CullText(str, length), length) == CullText(str, length)
  {
  }

  /** Upper-casing of one character; only the ASCII letters a to z change. */
  function UpperCase(c: char): (u: char)
    ensures 'a' <= c <= 'z' ==> 'A' <= u <= 'Z' && u as int == c as int - 32
    ensures !('a' <= c <= 'z') ==> u == c
  {
    if 'a' <= c <= 'z' then (c as int - 32) as char else c
  }

  /** The string with its first character upper-cased; the empty string stays empty. */
  function TitleCase(str: string): (r: string)
    ensures |r| == |str|
    ensures str != [] ==> r[0] == UpperCase(str[0]) && r[1..] == str[1..]
  {
    if str == [] then str else [UpperCase(str[0])] + str[1..]
  }

  /** Title-casing twice is title-casing once. */
  lemma TitleCaseIdempotent(str: string)
    ensures TitleCase(TitleCase(str)) == TitleCase(str)
  {
  }
}
