/** models/federation/federation.py: the federation descriptor and the
    class-wide registry its constructor fills. The registry is passed in and
    returned rather than held in a class variable. */
module Federations {
  import opened Wrappers
  import opened Text

  datatype Federation = Federation(code: string, name: string)

  type Registry = map<string, Federation>

  /** Every entry is filed under its own (upper-case) code. */
  predicate WellFiled(reg: Registry) {
    forall k :: k in reg ==> reg[k].code == k && Upper(k) == k
  }

  /** `Federation(code, name)`: the code is upper-cased and registered; a
      code already registered raises and the registry keeps its entry. */
  function Create(reg: Registry, code: string, name: string): (r: Result<(Federation, Registry), string>)
    ensures r.Failure? <==> Upper(code) in reg
    ensures r.Success? ==> r.value.0 == Federation(Upper(code), name)
                           && r.value.1 == reg[Upper(code) := r.value.0]
    ensures r.Success? && WellFiled(reg) ==> WellFiled(r.value.1)
  {
    var f := Federation(Upper(code), name);
    if f.code in reg then Failure("Federation '" + f.code + "' already registered")
    else
      UpperIdempotent(code);
      Success((f, reg[f.code := f]))
  }

  /** `from_code`: a case-insensitive lookup; an unknown code raises. */
  function FromCode(reg: Registry, code: string): (r: Result<Federation, string>)
    ensures r.Success? <==> Upper(code) in reg
    ensures r.Success? ==> r.value == reg[Upper(code)]
  {
    if Upper(code) in reg then Success(reg[Upper(code)])
    else Failure("Unknown federation code: " + code)
  }

  /** `str(f)`: exactly the code. */
  function ToString(f: Federation): (s: string)
    ensures s == f.code
  {
    f.code
  }

  /** A created federation is found again under its code in any letter case,
      and its text is its upper-cased code. */
  lemma CreateThenFind(reg: Registry, code: string, name: string, query: string)
    requires Create(reg, code, name).Success? && Upper(query) == Upper(code)
    ensures var c := Create(reg, code, name).value;
            FromCode(c.1, query) == Success(c.0) && ToString(c.0) == Upper(code)
  {
  }

  /** Creating a federation leaves every other registered code as it was. */
  lemma CreateKeepsOthers(reg: Registry, code: string, name: string, other: string)
    requires Create(reg, code, name).Success? && Upper(other) != Upper(code)
    ensures FromCode(Create(reg, code, name).value.1, other) == FromCode(reg, other)
  {
  }
}
