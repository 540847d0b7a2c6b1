/** The two pieces of string logic in piehook/cli.py: the file name that
    `create` writes a hooks file under, and the discovery suffix that `run`
    hands to `import_hooks`. */
module Cli {
  import opened Discovery

  datatype Option<T> = None | Some(value: T)

  /** The default discovery suffix. */
  const HooksSuffix: string := "_hooks"

  /** Python's `sub in s`: `sub` occurs in `s` as a contiguous slice. */
  predicate Contains(s: string, sub: string)
    decreases |s|
  {
    sub <= s || (s != [] && Contains(s[1..], sub))
  }

  lemma {:induction false} ContainsAfter(s: string, t: string, sub: string)
    requires Contains(t, sub)
    ensures Contains(s + t, sub)
    decreases |s|
  {
    if s == [] {
      assert s + t == t;
    } else {
      assert (s + t)[1..] == s[1..] + t;
      ContainsAfter(s[1..], t, sub);
      assert Contains((s + t)[1..], sub);
    }
  }

  lemma {:induction false} ContainsExtend(s: string, t: string, sub: string)
    requires Contains(s, sub)
    ensures Contains(s + t, sub)
    decreases |s|
  {
    if !(sub <= s) {
      assert (s + t)[1..] == s[1..] + t;
      ContainsExtend(s[1..], t, sub);
    }
  }

  /** `_create_hooks_file`'s file name: `_hooks` is appended unless the
      name contains it anywhere, then `.py` unless the name ends with it. */
  function NormaliseHooksFileName(name: string): (r: string)
    ensures name <= r
    ensures Contains(r, HooksSuffix)
    ensures EndsWith(r, ".py")
  {
    var stem := if Contains(name, HooksSuffix) then name else name + HooksSuffix;
    assert Contains(stem, HooksSuffix) by {
      if !Contains(name, HooksSuffix) {
        ContainsAfter(name, HooksSuffix, HooksSuffix);
      }
    }
    if EndsWith(stem, ".py") then stem
    else
      ContainsExtend(stem, ".py", HooksSuffix);
      stem + ".py"
  }

  /** The name is left alone exactly when it already contains `_hooks` and
      ends with `.py`; a name without `_hooks` gets both added, even when it
      ends with `.py` already. */
  lemma NormaliseHooksFileNameCases(name: string)
    ensures NormaliseHooksFileName(name) == name <==> Contains(name, HooksSuffix) && EndsWith(name, ".py")
    ensures !Contains(name, HooksSuffix) ==> NormaliseHooksFileName(name) == name + "_hooks.py"
    ensures Contains(name, HooksSuffix) && !EndsWith(name, ".py") ==> NormaliseHooksFileName(name) == name + ".py"
  {
    if !Contains(name, HooksSuffix) {
      assert (name + HooksSuffix)[|name| + 3..] == "oks";
      assert name + HooksSuffix + ".py" == name + "_hooks.py";
    }
  }

  /** Normalising a normalised name changes nothing. */
  lemma NormaliseHooksFileNameIdempotent(name: string)
    ensures NormaliseHooksFileName(NormaliseHooksFileName(name)) == NormaliseHooksFileName(name)
  {
    NormaliseHooksFileNameCases(NormaliseHooksFileName(name));
  }

  /** A name that contains `_hooks` but does not end with it (nor with
      `.py`) is given only `.py`, so the file `create` writes does not end
      in `_hooks.py` and a `run` with the default suffix never imports it. */
  lemma CreatedFileMissedByDefaultScan(name: string)
    requires Contains(name, HooksSuffix)
    requires !EndsWith(name, ".py") && !EndsWith(name, HooksSuffix)
    ensures NormaliseHooksFileName(name) == name + ".py"
    ensures !FileMatches(NormaliseHooksFileName(name), EffectiveSuffix(None))
  {
    EndsWithAppend(name, HooksSuffix, ".py");
  }

  lemma EndsWithAppend(s: string, t: string, u: string)
    ensures EndsWith(s + u, t + u) <==> EndsWith(s, t)
  {
    if |t| <= |s| {
      assert (s + u)[|s + u| - |t + u|..] == s[|s| - |t|..] + u;
    }
    if EndsWith(s + u, t + u) {
      assert (s + u)[|s + u| - |t + u|..][..|t|] == s[|s| - |t|..];
    }
  }

  /** An input that shows it: `greeting_hooks_v2` becomes
      `greeting_hooks_v2.py`. */
  lemma CreatedFileMissedExample()
    ensures !FileMatches(NormaliseHooksFileName("greeting_hooks_v2"), EffectiveSuffix(None))
  {
    var name := "greeting_hooks_v2";
    assert name[8..14] == HooksSuffix;
    SuffixContains(name, 8, HooksSuffix);
    assert name[|name| - 3..] != ".py";
    assert name[|name| - 6..] != HooksSuffix;
    CreatedFileMissedByDefaultScan(name);
  }

  /** The file name `create` evidently means to write: one that the default
      scan imports. A name already ending in `_hooks.py` is kept, one ending
      in `_hooks` gets `.py`, and any other gets `_hooks.py`. */
  function DiscoverableHooksFileName(name: string): (r: string)
    ensures name <= r
    ensures FileMatches(r, HooksSuffix)
  {
    if EndsWith(name, HooksSuffix + ".py") then name
    else if EndsWith(name, HooksSuffix) then
      assert (name + ".py")[|name| - 6..] == name[|name| - 6..] + ".py";
      name + ".py"
    else
      assert (name + HooksSuffix + ".py")[|name|..] == HooksSuffix + ".py";
      name + HooksSuffix + ".py"
  }

  /** The corrected name agrees with the written one on the names the
      written one handles as intended: those without `_hooks`, and those
      ending in `_hooks` or `_hooks.py`. */
  lemma DiscoverableAgreesWithoutHooks(name: string)
    requires !Contains(name, HooksSuffix)
    ensures DiscoverableHooksFileName(name) == NormaliseHooksFileName(name)
  {
    NormaliseHooksFileNameCases(name);
    if EndsWith(name, HooksSuffix) {
      SuffixContains(name, |name| - 6, HooksSuffix);
    } else if EndsWith(name, HooksSuffix + ".py") {
      assert name[|name| - 9..][..6] == HooksSuffix;
      SuffixContains(name, |name| - 9, HooksSuffix);
    }
  }

  lemma DiscoverableAgreesOnHooksEnding(name: string)
    requires EndsWith(name, HooksSuffix) || EndsWith(name, HooksSuffix + ".py")
    ensures DiscoverableHooksFileName(name) == NormaliseHooksFileName(name)
  {
    if EndsWith(name, HooksSuffix + ".py") {
      assert name[|name| - 9..][..6] == HooksSuffix;
      SuffixContains(name, |name| - 9, HooksSuffix);
      assert name[|name| - 3..] == name[|name| - 9..][6..];
    } else {
      SuffixContains(name, |name| - 6, HooksSuffix);
      assert name[|name| - 3..] == name[|name| - 6..][3..];
    }
  }

  /** Normalising a corrected name changes nothing. */
  lemma DiscoverableHooksFileNameIdempotent(name: string)
    ensures DiscoverableHooksFileName(DiscoverableHooksFileName(name)) == DiscoverableHooksFileName(name)
  {
  }

  lemma {:induction false} SuffixContains(s: string, k: nat, sub: string)
    requires k <= |s| && sub <= s[k..]
    ensures Contains(s, sub)
    decreases k
  {
    if k > 0 {
      assert s[1..][k - 1..] == s[k..];
      SuffixContains(s[1..], k - 1, sub);
    }
  }

  /** `args.suffix or '_hooks'`: an absent or empty `--suffix` gives the
      default suffix, any other value is used as given. */
  function EffectiveSuffix(given: Option<string>): (r: string)
    ensures r != ""
    ensures given.Some? && given.value != "" ==> r == given.value
    ensures given.None? || given.value == "" ==> r == HooksSuffix
  {
    if given.Some? && given.value != "" then given.value else HooksSuffix
  }
}
