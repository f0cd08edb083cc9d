/** Character classes of include/crab/http/types.hxx and hex digits of include/crab/util.hxx.
    A char stands for one octet; octets above 127 are neither `IsChar` nor `IsCtl`. */
module HttpChars {

  datatype Option<+T> = None | Some(value: T)

  const CR: char := '\r'
  const LF: char := '\n'
  const CRLF: string := "\r\n"

  predicate IsSp(c: char) { c == ' ' || c == '\t' }

  predicate IsChar(c: char) { c as int <= 127 }

  predicate IsCtl(c: char) { c as int <= 31 || c as int == 127 }

  predicate IsTspecial(c: char) {
    c in "()<>@,;:\\\"/[]?={} \t"
  }

  predicate IsUriReserved(c: char) {
    !IsChar(c) || IsCtl(c) || IsSp(c) || c in "!#$%&'()*+,/:;=?@[]"
  }

  predicate IsDigit(c: char) { '0' <= c <= '9' }

  function DigitValue(c: char): (d: nat)
    requires IsDigit(c)
    ensures d <= 9
  {
    c as int - '0' as int
  }

  /** -1 when the character is no hex digit. */
  function FromHexDigit(sym: char): (d: int)
    ensures -1 <= d <= 15
  {
    if '0' <= sym <= '9' then sym as int - '0' as int
    else if 'a' <= sym <= 'f' then sym as int - 'a' as int + 10
    else if 'A' <= sym <= 'F' then sym as int - 'A' as int + 10
    else -1
  }

  function HexDigit(d: nat): (c: char)
    requires d < 16
    ensures FromHexDigit(c) == d
    ensures !IsSp(c) && c != CR && c != LF && c != ';'
  {
    if d < 10 then (d + '0' as int) as char else (d - 10 + 'a' as int) as char
  }

  function ToLowerChar(c: char): char {
    if 'A' <= c <= 'Z' then (c as int + 32) as char else c
  }

  function ToLower(s: string): (r: string)
    ensures |r| == |s| && forall i :: 0 <= i < |s| ==> r[i] == ToLowerChar(s[i])
  {
    seq(|s|, i requires 0 <= i < |s| => ToLowerChar(s[i]))
  }

  /** Without the spaces and tabs at the end. */
  function TrimRight(s: string): (r: string)
    ensures |r| <= |s| && r == s[..|r|]
    ensures r != "" ==> !IsSp(r[|r| - 1])
    ensures forall i :: |r| <= i < |s| ==> IsSp(s[i])
  {
    if s != "" && IsSp(s[|s| - 1]) then TrimRight(s[..|s| - 1]) else s
  }
}
