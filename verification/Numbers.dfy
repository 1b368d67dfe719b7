/** `strconv.ParseInt(s, 10, 64)`, which is also `strconv.Atoi` on a 64-bit platform. */
module Numbers {
  import opened Text

  const MAX_INT64 := 0x7fff_ffff_ffff_ffff
  const MIN_INT64 := -0x8000_0000_0000_0000

  predicate IsDecimal(s: string) {
    s != "" && forall i :: 0 <= i < |s| ==> '0' <= s[i] <= '9'
  }

  function DecimalValue(s: string): nat
    requires forall i :: 0 <= i < |s| ==> '0' <= s[i] <= '9'
  {
    if s == "" then 0 else 10 * DecimalValue(s[..|s| - 1]) + (s[|s| - 1] as int - '0' as int)
  }

  predicate IsSigned(s: string) {
    s != "" && (s[0] == '-' || s[0] == '+')
  }

  function ParseInt64(s: string): (value: Option<int>)
    ensures value.Some? ==> MIN_INT64 <= value.value <= MAX_INT64
  {
    var digits := if IsSigned(s) then s[1..] else s;
    if !IsDecimal(digits) then None
    else
      var value: int := if IsSigned(s) && s[0] == '-' then 0 - (DecimalValue(digits) as int)
                         else DecimalValue(digits) as int;
      if MIN_INT64 <= value <= MAX_INT64 then Some(value) else None
  }
}
