/**
 * The parts of Kubernetes' API machinery that the webhook handler calls to
 * copy the request's type identity into its response: group/version parsing,
 * GroupVersionKind and TypeMeta (apiVersion + kind).
 */
module Meta {
  import opened Wrappers

  /** The separator between group and version in an apiVersion string. */
  const Separator: char := '/'

  /** Number of occurrences of `c` in `s` (Go's strings.Count with a one-character separator). */
  function Count(s: string, c: char): (n: nat)
  {
    if s == [] then 0 else (if s[0] == c then 1 else 0) + Count(s[1..], c)
  }

  lemma {:induction false} CountConcat(a: string, b: string, c: char)
    ensures Count(a + b, c) == Count(a, c) + Count(b, c)
  {
    if a == [] {
      assert a + b == b;
    } else {
      assert (a + b)[1..] == a[1..] + b;
      CountConcat(a[1..], b, c);
    }
  }

  lemma {:induction false} CountZero(s: string, c: char)
    ensures Count(s, c) == 0 <==> c !in s
  {
    if s != [] {
      CountZero(s[1..], c);
      assert s == [s[0]] + s[1..];
    }
  }

  /** Position of the first `c` in `s`, or -1 (Go's strings.Index with a one-character needle). */
  function Index(s: string, c: char): (i: int)
    ensures -1 <= i < |s|
    ensures i == -1 <==> c !in s
    ensures 0 <= i ==> s[i] == c && c !in s[..i]
  {
    if s == [] then -1
    else if s[0] == c then 0
    else
      var j := Index(s[1..], c);
      if j < 0 then -1
      else
        assert s[..j + 1] == [s[0]] + s[1..][..j];
        j + 1
  }

  datatype GroupVersion = GroupVersion(group: string, version: string) {
    /** "group/version", or the bare version for the core (empty) group. */
    function String(): (s: string)
    {
      if |group| > 0 then group + [Separator] + version else version
    }
  }

  /**
   * Parses an apiVersion string. The empty string and "/" give the empty
   * GroupVersion, a string without a separator is a bare version of the core
   * group, one separator splits group from version, and more are an error.
   */
  function ParseGroupVersion(gv: string): (r: Result<GroupVersion, string>)
    ensures r.Success? <==> Count(gv, Separator) <= 1
    ensures r.Success? ==> Separator !in r.value.group && Separator !in r.value.version
    ensures r.Failure? ==> r.error == "unexpected GroupVersion string: " + gv
  {
    CountZero(gv, Separator);
    if |gv| == 0 || gv == [Separator] then
      Success(GroupVersion("", ""))
    else if Count(gv, Separator) == 0 then
      Success(GroupVersion("", gv))
    else if Count(gv, Separator) == 1 then
      var i := Index(gv, Separator);
      assert gv == gv[..i] + [gv[i]] + gv[i + 1..];
      CountConcat(gv[..i] + [gv[i]], gv[i + 1..], Separator);
      CountConcat(gv[..i], [gv[i]], Separator);
      CountZero(gv[..i], Separator);
      CountZero(gv[i + 1..], Separator);
      Success(GroupVersion(gv[..i], gv[i + 1..]))
    else
      Failure("unexpected GroupVersion string: " + gv)
  }

  datatype GroupVersionKind = GroupVersionKind(group: string, version: string, kind: string) {
    predicate Empty()
    {
      |group| == 0 && |version| == 0 && |kind| == 0
    }

    function ToGroupVersion(): (gv: GroupVersion)
    {
      GroupVersion(group, version)
    }
  }

  datatype GroupVersionResource = GroupVersionResource(group: string, version: string, resource: string)

  /** The apiVersion and kind fields every serialized Kubernetes object carries. */
  datatype TypeMeta = TypeMeta(apiVersion: string, kind: string)

  /** The kind an object claims; an unparsable apiVersion leaves only the kind. */
  function FromAPIVersionAndKind(tm: TypeMeta): (gvk: GroupVersionKind)
    ensures gvk.kind == tm.kind
    ensures Separator !in gvk.group && Separator !in gvk.version
  {
    match ParseGroupVersion(tm.apiVersion)
    case Success(gv) => GroupVersionKind(gv.group, gv.version, tm.kind)
    case Failure(_) => GroupVersionKind("", "", tm.kind)
  }

  /** The TypeMeta that SetGroupVersionKind writes: both fields empty for the empty kind. */
  function ToAPIVersionAndKind(gvk: GroupVersionKind): (tm: TypeMeta)
    ensures tm.kind == gvk.kind
    ensures gvk.Empty() ==> tm == TypeMeta("", "")
    ensures Separator !in gvk.group && Separator !in gvk.version ==> Count(tm.apiVersion, Separator) <= 1
  {
    CountZero(gvk.group, Separator);
    CountZero(gvk.version, Separator);
    CountConcat(gvk.group + [Separator], gvk.version, Separator);
    CountConcat(gvk.group, [Separator], Separator);
    if gvk.Empty() then TypeMeta("", "") else TypeMeta(gvk.ToGroupVersion().String(), gvk.kind)
  }

  /** Writing a GroupVersionKind and reading it back gives it unchanged, as long as group and version hold no separator. */
  lemma RoundTrip(gvk: GroupVersionKind)
    requires Separator !in gvk.group && Separator !in gvk.version
    ensures FromAPIVersionAndKind(ToAPIVersionAndKind(gvk)) == gvk
  {
    if !gvk.Empty() && |gvk.group| > 0 {
      var s := gvk.group + [Separator] + gvk.version;
      CountZero(gvk.group, Separator);
      CountZero(gvk.version, Separator);
      CountConcat(gvk.group + [Separator], gvk.version, Separator);
      CountConcat(gvk.group, [Separator], Separator);
      assert s[..|gvk.group|] == gvk.group;
      assert s[|gvk.group| + 1..] == gvk.version;
      assert s[|gvk.group|] == Separator;
    } else if !gvk.Empty() {
      CountZero(gvk.version, Separator);
    }
  }

  /** Copying a TypeMeta through SetGroupVersionKind(GroupVersionKind()) keeps the GroupVersionKind. */
  lemma GroupVersionKindPreserved(tm: TypeMeta)
    ensures FromAPIVersionAndKind(ToAPIVersionAndKind(FromAPIVersionAndKind(tm))) == FromAPIVersionAndKind(tm)
  {
    RoundTrip(FromAPIVersionAndKind(tm));
  }

  /** An apiVersion that is a bare version or "group/version" with a non-empty group. */
  predicate IsCanonicalApiVersion(apiVersion: string)
  {
    Count(apiVersion, Separator) == 0
    || (Count(apiVersion, Separator) == 1 && apiVersion[0] != Separator)
  }

  /** "group/version" with a non-empty, separator-free group and a separator-free version is canonical. */
  lemma CanonicalGroupVersion(group: string, version: string)
    requires |group| > 0 && Separator !in group && Separator !in version
    ensures IsCanonicalApiVersion(group + [Separator] + version)
  {
    CountZero(group, Separator);
    CountZero(version, Separator);
    CountConcat(group + [Separator], version, Separator);
    CountConcat(group, [Separator], Separator);
  }

  /** The copied TypeMeta equals the original exactly when the original apiVersion is canonical. */
  lemma TypeMetaPreservedIff(tm: TypeMeta)
    ensures ToAPIVersionAndKind(FromAPIVersionAndKind(tm)) == tm <==> IsCanonicalApiVersion(tm.apiVersion)
  {
    var av := tm.apiVersion;
    CountZero(av, Separator);
    var out := ToAPIVersionAndKind(FromAPIVersionAndKind(tm));
    if Count(av, Separator) == 1 {
      var i := Index(av, Separator);
      assert av == av[..i] + [av[i]] + av[i + 1..];
      if av[0] != Separator {
        assert i != 0;
        assert av != [Separator];
        assert out.apiVersion == av[..i] + [Separator] + av[i + 1..];
      } else if av != [Separator] {
        assert i == 0;
        assert |out.apiVersion| < |av|;
      }
    }
  }
}
