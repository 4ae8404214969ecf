/** The option registry: the first-match linear scans over the option table
    (`_cargparse_search_long_option`, `_cargparse_search_short_option`,
    `_cargparse_get_next_positional_opt` and `_cargparse_find_opt`). An index
    of -1 means "not found", as in the C code. */
module Registry {
  import opened Types

  /** The first index at or after `lo` whose option satisfies `p`, or -1. */
  function FirstMatch(opts: seq<OptionSpec>, p: OptionSpec -> bool, lo: nat): (i: int)
    ensures i == -1 || lo <= i < |opts|
    ensures i >= 0 ==> p(opts[i]) && forall j :: lo <= j < i ==> !p(opts[j])
    ensures i == -1 <==> forall j :: lo <= j < |opts| ==> !p(opts[j])
    decreases |opts| - lo
  {
    if lo >= |opts| then -1
    else if p(opts[lo]) then lo
    else FirstMatch(opts, p, lo + 1)
  }

  predicate HasShortName(o: OptionSpec, c: char) {
    o.shortName == Some(c)
  }

  predicate HasLongName(o: OptionSpec, name: string) {
    o.longName == Some(name)
  }

  /** `_cargparse_search_short_option`: the first option declaring short name
      `c`; an option without a short name never matches. */
  function FindShort(opts: seq<OptionSpec>, c: char): (i: int)
    ensures -1 <= i < |opts|
    ensures i >= 0 ==> HasShortName(opts[i], c) && forall j :: 0 <= j < i ==> !HasShortName(opts[j], c)
    ensures i == -1 <==> forall j :: 0 <= j < |opts| ==> !HasShortName(opts[j], c)
  {
    FirstMatch(opts, o => HasShortName(o, c), 0)
  }

  /** `_cargparse_search_long_option`: the first option declaring long name
      `name`. Positional options are NOT skipped: a positional is found by
      its long name. */
  function FindLong(opts: seq<OptionSpec>, name: string): (i: int)
    ensures -1 <= i < |opts|
    ensures i >= 0 ==> HasLongName(opts[i], name) && forall j :: 0 <= j < i ==> !HasLongName(opts[j], name)
    ensures i == -1 <==> forall j :: 0 <= j < |opts| ==> !HasLongName(opts[j], name)
  {
    FirstMatch(opts, o => HasLongName(o, name), 0)
  }

  /** `_cargparse_get_next_positional_opt`: the first positional strictly
      after `prev` (-1 starts from the first option). */
  function NextPositional(opts: seq<OptionSpec>, prev: int): (i: int)
    requires prev >= -1
    ensures i == -1 || prev < i < |opts|
    ensures i >= 0 ==> opts[i].kind == Pos && forall j :: prev < j < i ==> opts[j].kind != Pos
    ensures i == -1 <==> forall j :: prev < j < |opts| ==> opts[j].kind != Pos
  {
    FirstMatch(opts, (o: OptionSpec) => o.kind == Pos, prev + 1)
  }

  /** `_cargparse_find_opt`: a given short name decides the lookup; only
      without one is the long name used; with neither the result is -1. */
  function FindOpt(opts: seq<OptionSpec>, shortName: Option<char>, longName: Option<string>): (i: int)
    ensures -1 <= i < |opts|
    ensures shortName.Some? ==> i == FindShort(opts, shortName.value)
    ensures shortName.None? && longName.Some? ==> i == FindLong(opts, longName.value)
    ensures shortName.None? && longName.None? ==> i == -1
  {
    if shortName.Some? then FindShort(opts, shortName.value)
    else if longName.Some? then FindLong(opts, longName.value)
    else -1
  }

  /** A positional declared by CARGPARSE_OPTION_POSITIONAL has no short name,
      so no short lookup ever lands on it, but the long lookup finds it when
      no earlier option has the same long name. */
  lemma PositionalFoundOnlyByLongName(opts: seq<OptionSpec>, k: nat, name: string, help: Option<string>,
                                      flags: int, c: char)
    requires k < |opts| && opts[k] == PositionalOption(Some(name), help, flags)
    requires forall j :: 0 <= j < k ==> !HasLongName(opts[j], name)
    ensures FindShort(opts, c) != k
    ensures FindLong(opts, name) == k
  {
    assert HasLongName(opts[k], name);
  }
}
