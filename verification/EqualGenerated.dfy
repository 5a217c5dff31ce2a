/** A slice of the generated equality functions, each proved against equality of values. */
module EqualGenerated {
  import opened SwarmSpec

  /** equal3: one direction of key lookups, in any iteration order, decides equality of maps. */
  method Equal3(a: StringMap, b: StringMap) returns (same: bool)
    ensures same <==> a == b
  {
    if a.NilMap? != b.NilMap? {
      return false;
    }
    if a.NilMap? {
      return true;
    }
    if |a.entries| != |b.entries| {
      return false;
    }
    var rest := a.entries.Keys;
    while rest != {}
      invariant rest <= a.entries.Keys
      invariant forall k :: k in a.entries && k !in rest ==> k in b.entries && b.entries[k] == a.entries[k]
      decreases rest
    {
      var k :| k in rest;
      if k !in b.entries || a.entries[k] != b.entries[k] {
        return false;
      }
      rest := rest - {k};
    }
    SameSizeKeys(a.entries, b.entries);
    return true;
  }

  /** The pigeonhole behind the missing second loop. */
  lemma SameSizeKeys(a: map<string, string>, b: map<string, string>)
    requires |a| == |b| && forall k :: k in a ==> k in b && b[k] == a[k]
    ensures a == b
  {
    assert a.Keys <= b.Keys;
    assert a.Keys + (b.Keys - a.Keys) == b.Keys;
  }

  method Equal1(a: Annotations, b: Annotations) returns (same: bool)
    ensures same <==> a == b
  {
    if a.Name != b.Name {
      return false;
    }
    same := Equal3(a.Labels, b.Labels);
  }

  method Equal10(a: array?<string>, b: array?<string>) returns (same: bool)
    ensures same <==> StringsView(a) == StringsView(b)
  {
    if (a == null) != (b == null) {
      return false;
    }
    if a == null {
      return true;
    }
    if a.Length != b.Length {
      return false;
    }
    for i := 0 to a.Length
      invariant a[..i] == b[..i]
    {
      if a[i] != b[i] {
        assert a[..][i] != b[..][i];
        return false;
      }
    }
    assert a[..] == a[..a.Length] == b[..b.Length] == b[..];
    return true;
  }

  method Equal68(a: FileTarget, b: FileTarget) returns (same: bool)
    ensures same <==> a.View() == b.View()
  {
    if a.Name != b.Name {
      return false;
    }
    if a.UID != b.UID {
      return false;
    }
    if a.GID != b.GID {
      return false;
    }
    return a.Mode == b.Mode;
  }

  method Equal66(a: SecretReference, b: SecretReference) returns (same: bool)
    ensures same <==> a.View() == b.View()
  {
    same := Equal67(a.File, b.File);
    if !same {
      return;
    }
    if a.SecretID != b.SecretID {
      return false;
    }
    return a.SecretName == b.SecretName;
  }

  /** equal67: pointers are compared by what they point to, never by address. */
  method Equal67(a: FileTarget?, b: FileTarget?) returns (same: bool)
    ensures same <==> (if a == null || b == null then a == b else a.View() == b.View())
  {
    if a == null || b == null {
      return a == b;
    }
    same := Equal68(a, b);
  }

  method Equal65(a: SecretReference?, b: SecretReference?) returns (same: bool)
    ensures same <==> RefView(a) == RefView(b)
  {
    if a == null || b == null {
      return a == b;
    }
    same := Equal66(a, b);
  }

  method Equal64(a: array?<SecretReference?>, b: array?<SecretReference?>) returns (same: bool)
    ensures same <==> SecretsView(a) == SecretsView(b)
  {
    if (a == null) != (b == null) {
      return false;
    }
    if a == null {
      return true;
    }
    if a.Length != b.Length {
      assert |RefsView(a[..])| != |RefsView(b[..])|;
      return false;
    }
    for i := 0 to a.Length
      invariant forall j :: 0 <= j < i ==> RefView(a[j]) == RefView(b[j])
    {
      same := Equal65(a[i], b[i]);
      if !same {
        assert RefsView(a[..])[i] == RefView(a[i]) && RefsView(b[..])[i] == RefView(b[i]);
        return false;
      }
    }
    assert RefsView(a[..]) == RefsView(b[..]);
    return true;
  }

  method Equal6(a: ContainerSpec, b: ContainerSpec) returns (same: bool)
    ensures same <==> a.View() == b.View()
  {
    if a.Image != b.Image {
      return false;
    }
    same := Equal3(a.Labels, b.Labels);
    if !same {
      return;
    }
    same := Equal10(a.Env, b.Env);
    if !same {
      return;
    }
    same := Equal64(a.Secrets, b.Secrets);
    if !same {
      return;
    }
    return a.Other == b.Other;
  }

  method Equal5(a: ContainerSpec?, b: ContainerSpec?) returns (same: bool)
    ensures same <==> ContainerOf(a) == ContainerOf(b)
  {
    if a == null || b == null {
      return a == b;
    }
    same := Equal6(a, b);
  }

  method Equal4(a: TaskSpec, b: TaskSpec) returns (same: bool)
    ensures same <==> ContainerOf(a.ContainerSpec) == ContainerOf(b.ContainerSpec) && a.Other == b.Other
  {
    same := Equal5(a.ContainerSpec, b.ContainerSpec);
    if !same {
      return;
    }
    return a.Other == b.Other;
  }

  /** equal133, and equal138 and equal139, which differ from it in name only. */
  method Equal133(a: Uint64?, b: Uint64?) returns (same: bool)
    ensures same <==> CellView(a) == CellView(b)
  {
    if a == null || b == null {
      return a == b;
    }
    return a.value == b.value;
  }

  method Equal131(a: ReplicatedService?, b: ReplicatedService?) returns (same: bool)
    ensures same <==> (if a == null || b == null then a == b else a.View() == b.View())
  {
    if a == null || b == null {
      return a == b;
    }
    same := Equal133(a.Replicas, b.Replicas);
  }

  method Equal137(a: ReplicatedJob, b: ReplicatedJob) returns (same: bool)
    ensures same <==> a.View() == b.View()
  {
    same := Equal133(a.MaxConcurrent, b.MaxConcurrent);
    if !same {
      return;
    }
    same := Equal133(a.TotalCompletions, b.TotalCompletions);
  }

  method Equal136(a: ReplicatedJob?, b: ReplicatedJob?) returns (same: bool)
    ensures same <==> (if a == null || b == null then a == b else a.View() == b.View())
  {
    if a == null || b == null {
      return a == b;
    }
    same := Equal137(a, b);
  }

  /** equal130: two non-nil pointers to empty structs are always equal. */
  method Equal130(a: ServiceMode, b: ServiceMode) returns (same: bool)
    ensures same <==> ModeOf(a) == ModeOf(b)
  {
    same := Equal131(a.Replicated, b.Replicated);
    if !same {
      return;
    }
    if a.Global == null || b.Global == null {
      if a.Global != b.Global {
        return false;
      }
    }
    same := Equal136(a.ReplicatedJob, b.ReplicatedJob);
    if !same {
      return;
    }
    if a.GlobalJob == null || b.GlobalJob == null {
      return a.GlobalJob == b.GlobalJob;
    }
    return true;
  }

  /** equal0: two specs in memory are equal exactly when they stand for the same value. */
  method EqualSpec(a: ServiceSpec, b: ServiceSpec) returns (same: bool)
    ensures same <==> ViewOf(a) == ViewOf(b)
  {
    same := Equal1(a.Annotations, b.Annotations);
    if !same {
      return;
    }
    same := Equal4(a.TaskTemplate, b.TaskTemplate);
    if !same {
      return;
    }
    same := Equal130(a.Mode, b.Mode);
    if !same {
      return;
    }
    return a.Other == b.Other;
  }
}
