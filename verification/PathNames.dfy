/** Absolute names as lists of components, and how a relative name is joined to the path of a directory. */
module PathNames {
  import opened Basics

  type Components = seq<string>

  const MAX_PATH: nat := 255

  predicate NoDots(cs: Components) { forall k :: 0 <= k < |cs| ==> !Dots(cs[k]) }

  /** Bytes of the path, a slash before every component. */
  function Length(cs: Components): nat { if cs == [] then 0 else Length(cs[..|cs| - 1]) + 1 + |cs[|cs| - 1]| }

  /** Bytes of a directory's path, a slash and a name. */
  function JoinLength(base: Components, name: string): nat { (if base == [] then 1 else Length(base)) + 1 + |name| }

  /** One component is added: "." adds nothing, ".." takes the last one away, at the root it stays there. */
  function Added(cs: Components, c: string): Components {
    if c == "." then cs
    else if c == ".." then (if cs == [] then [] else cs[..|cs| - 1])
    else cs + [c]
  }

  /** The name with its dots collapsed, whatever is on disk. */
  function Normal(cs: Components): Components { if cs == [] then [] else Added(Normal(cs[..|cs| - 1]), cs[|cs| - 1]) }

  method NormalizeAbs(cs: Components) returns (out: Components)
    ensures out == Normal(cs)
  {
    out := [];
    var k := 0;
    while k < |cs|
      invariant k <= |cs| && out == Normal(cs[..k])
    {
      assert cs[..k + 1][..k] == cs[..k];
      out := Added(out, cs[k]);
      k := k + 1;
    }
    assert cs[..k] == cs;
  }

  /** Collapsing leaves no dots. */
  lemma {:induction false} NormalNoDots(cs: Components)
    ensures NoDots(Normal(cs))
  {
    if cs != [] {
      NormalNoDots(cs[..|cs| - 1]);
    }
  }

  /** A name without dots is left as it is. */
  lemma {:induction false} NormalSame(cs: Components)
    requires NoDots(cs)
    ensures Normal(cs) == cs
  {
    if cs != [] {
      NormalSame(cs[..|cs| - 1]);
      assert cs == cs[..|cs| - 1] + [cs[|cs| - 1]];
    }
  }

  lemma Extended(cs: Components, c: string)
    ensures Normal(cs + [c]) == Added(Normal(cs), c) && Length(cs + [c]) == Length(cs) + 1 + |c|
  {
    assert (cs + [c])[..|cs|] == cs;
  }
}
