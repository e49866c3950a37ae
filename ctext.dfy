/** Null-terminated text as it crosses the boundary: `CString::new` and
    `into_raw` on the way out, `CStr::from_ptr` on the way in. */
module CText {
  import opened Wrappers

  const NUL: char := '\0'

  /** The position of the first terminator in a memory region that holds one
      (the scan `CStr::from_ptr` performs). */
  function FirstNul(mem: seq<char>): (k: nat)
    requires NUL in mem
    ensures k < |mem| && mem[k] == NUL
    ensures forall j :: 0 <= j < k ==> mem[j] != NUL
  {
    if mem[0] == NUL then 0
    else
      assert NUL in mem[1..] by {
        var i :| 0 <= i < |mem| && mem[i] == NUL;
        assert mem[1..][i - 1] == NUL;
      }
      1 + FirstNul(mem[1..])
  }

  /** The text a reader of a null-terminated buffer sees: everything before
      the first terminator. */
  function DecodeText(mem: seq<char>): (s: string)
    requires NUL in mem
    ensures NUL !in s
    ensures |s| < |mem| && mem[..|s| + 1] == s + [NUL]
  {
    mem[..FirstNul(mem)]
  }

  /** `CString::new(data)`: the terminated buffer when the text has no
      interior NUL, otherwise the failure with the position of the first
      NUL (`NulError`). */
  function CStringNew(data: string): (r: Result<seq<char>, nat>)
    ensures r.Success? <==> NUL !in data
    ensures r.Success? ==> |r.value| == |data| + 1 && NUL in r.value && DecodeText(r.value) == data
    ensures r.Failure? ==> r.error < |data| && data[r.error] == NUL
    ensures r.Failure? ==> forall j :: 0 <= j < r.error ==> data[j] != NUL
  {
    if NUL in data then Failure(FirstNul(data))
    else
      var buf := data + [NUL];
      assert buf[|data|] == NUL;
      assert FirstNul(buf) == |data|;
      Success(buf)
  }

  function Digit(d: nat): (c: char)
    requires d < 10
    ensures '0' <= c <= '9' && c as int - '0' as int == d
  {
    ('0' as int + d) as char
  }

  /** The number a string of decimal digits denotes. */
  function DigitsValue(s: string): nat
    requires forall i :: 0 <= i < |s| ==> '0' <= s[i] <= '9'
  {
    if s == [] then 0
    else DigitsValue(s[..|s| - 1]) * 10 + (s[|s| - 1] as int - '0' as int)
  }

  /** The decimal rendering `{}` gives a `usize`: a non-empty string of
      digits that denotes the number. */
  function Decimal(n: nat): (s: string)
    ensures |s| > 0
    ensures forall i :: 0 <= i < |s| ==> '0' <= s[i] <= '9'
    ensures DigitsValue(s) == n
    ensures |s| == 1 || s[0] != '0'  // no leading zero
    decreases n
  {
    if n < 10 then [Digit(n)]
    else
      var init := Decimal(n / 10);
      var s := init + [Digit(n % 10)];
      assert s[..|s| - 1] == init && s[0] == init[0];
      s
  }
}
