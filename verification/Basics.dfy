/** Small shared vocabulary: optional values, duplicate-free lists, address intervals. */
module Basics {

  datatype Option<+T> = None | Some(value: T)

  ghost predicate NoDup<T>(s: seq<T>) {
    forall i, j :: 0 <= i < j < |s| ==> s[i] != s[j]
  }

  /** `list_del` of an element: its first occurrence goes, if there is one. */
  function Without<T(==)>(s: seq<T>, p: T): seq<T> {
    if s == [] then [] else if s[0] == p then s[1..] else [s[0]] + Without(s[1..], p)
  }

  lemma {:induction false} WithoutOk<T>(s: seq<T>, p: T)
    requires NoDup(s)
    ensures NoDup(Without(s, p))
    ensures forall q :: q in Without(s, p) <==> q in s && q != p
    ensures |Without(s, p)| == |s| - (if p in s then 1 else 0)
  {
    if s != [] {
      var rest := s[1..];
      assert s == [s[0]] + rest;
      assert s[0] !in rest;
      if s[0] != p {
        WithoutOk(rest, p);
        var w := Without(rest, p);
        forall i, j | 0 <= i < j < |w| + 1 ensures ([s[0]] + w)[i] != ([s[0]] + w)[j] {
          if i == 0 { assert w[j - 1] in w; }
        }
      } else {
        assert p !in rest;
      }
    }
  }

  lemma {:induction false} WithoutAt<T>(s: seq<T>, i: nat)
    requires i < |s| && forall j :: 0 <= j < i ==> s[j] != s[i]
    ensures Without(s, s[i]) == s[..i] + s[i + 1..]
  {
    if i > 0 {
      WithoutAt(s[1..], i - 1);
      assert s[..i] == [s[0]] + s[1..][..i - 1];
      assert s[i + 1..] == s[1..][i..];
    }
  }

  /** A half-open address interval, as a `vm_area_struct` or a `vmrange` describes it. */
  datatype Area = Area(start: nat, end: nat)

  predicate Contains(a: Area, addr: nat) {
    a.start <= addr < a.end
  }

  /** The addresses of an interval, as a set. */
  function Range(lo: nat, hi: nat): set<nat> {
    set addr: nat | addr < hi && Contains(Area(lo, hi), addr)
  }

  predicate InAreas(areas: seq<Area>, addr: nat) {
    exists i :: 0 <= i < |areas| && Contains(areas[i], addr)
  }

  /** The order in which the kernel keeps a process' areas: non-empty, ascending, disjoint; touching is fine. */
  ghost predicate Sorted(areas: seq<Area>) {
    && (forall i :: 0 <= i < |areas| ==> areas[i].start < areas[i].end)
    && (forall i, j :: 0 <= i < j < |areas| ==> areas[i].end <= areas[j].start)
  }
}
