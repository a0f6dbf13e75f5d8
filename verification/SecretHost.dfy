/** The secret service, its store and the quota check, acting on the rows. */
module SecretHost {
  import opened Common
  import opened Secrets

  class SecretService {
    var secrets: Table
    var alerted: set<string>

    constructor (secrets: Table)
      ensures View() == State(secrets, {})
    {
      this.secrets, alerted := secrets, {};
    }

    ghost function View(): State
      reads this
    {
      State(secrets, alerted)
    }

    method CountEnabled() returns (n: nat)
      ensures n == |Enabled(secrets)|
    {
      n := |Enabled(secrets)|;
    }

    method Add(l: string, valid: bool) returns (done: bool)
      modifies this`secrets
      ensures View() == Next(old(View()), Secrets.Add(l, valid))
      ensures done <==> valid && |old(secrets)| < 1000 && l !in old(secrets)
      ensures secrets == if done then old(secrets)[l := Secret(true, 0, Never)] else old(secrets)
    {
      if !valid || |secrets| >= MAX_SECRETS || l in secrets {
        return false;
      }
      secrets := secrets[l := Secret(true, 0, Never)];
      return true;
    }

    method Clone(src: string, l: string, valid: bool) returns (done: bool)
      modifies this`secrets
      ensures View() == Next(old(View()), Secrets.Clone(src, l, valid))
      ensures done <==> valid && l !in old(secrets) && |old(secrets)| < 1000 && src in old(secrets)
      ensures secrets == if done then old(secrets)[l := old(secrets)[src]] else old(secrets)
    {
      if !valid || l in secrets || |secrets| >= MAX_SECRETS || src !in secrets {
        return false;
      }
      secrets := secrets[l := secrets[src]];
      return true;
    }

    method ImportSecrets(entries: seq<Entry>) returns (done: bool)
      modifies this`secrets
      ensures View() == Next(old(View()), Secrets.ImportSecrets(entries))
      ensures done <==> |old(secrets)| + |entries| <= 1000
      ensures if done then Imported(old(secrets), entries, secrets) else secrets == old(secrets)
    {
      if |secrets| + |entries| > MAX_SECRETS {
        return false;
      }
      var i := 0;
      while i < |entries|
        invariant 0 <= i <= |entries| && secrets == Import(old(secrets), entries[..i])
      {
        assert entries[..i + 1][..i] == entries[..i];
        var e := entries[i];
        if e.valid && e.l !in secrets {
          secrets := secrets[e.l := Secret(true, e.quotaBytes, e.expiry)];
        }
        i := i + 1;
      }
      assert entries[..i] == entries;
      ImportImports(old(secrets), entries);
      return true;
    }

    method Remove(l: string) returns (done: bool)
      modifies this`secrets
      ensures View() == Next(old(View()), Secrets.Remove(l))
      ensures done <==> l in old(secrets) && (old(secrets)[l].enabled ==> |Enabled(old(secrets))| > 1)
      ensures secrets == if done then old(secrets) - {l} else old(secrets)
    {
      if l !in secrets {
        return false;
      }
      if secrets[l].enabled {
        var count := CountEnabled();
        if count <= 1 {
          return false;
        }
      }
      secrets := map k | k in secrets && k != l :: secrets[k];
      assert secrets == old(secrets) - {l};
      return true;
    }

    method Toggle(l: string, enable: bool) returns (done: bool)
      modifies this`secrets
      ensures View() == Next(old(View()), Secrets.Toggle(l, enable))
      ensures done <==> l in old(secrets) && (!enable ==> |Enabled(old(secrets))| > 1)
      ensures secrets == if done then old(secrets)[l := old(secrets)[l].(enabled := enable)] else old(secrets)
    {
      if l !in secrets {
        return false;
      }
      if !enable {
        var count := CountEnabled();
        if count <= 1 {
          return false;
        }
      }
      secrets := secrets[l := secrets[l].(enabled := enable)];
      return true;
    }

    // ---------- bulk toggling ----------

    /** Distinct rows, as SQL counts them. */
    method CountEnabledByLabels(labels: seq<string>) returns (n: nat)
      ensures n == |Listed(secrets, labels)|
    {
      n := |Listed(secrets, labels)|;
    }

    method BulkToggle(labels: seq<string>, enable: bool) returns (done: bool)
      modifies this`secrets
      ensures View() == Next(old(View()), Secrets.BulkToggle(labels, enable))
      ensures done <==> BulkAllowed(old(secrets), labels, enable)
      ensures secrets.Keys == old(secrets).Keys
      ensures forall l | l in secrets :: secrets[l] == if done && l in labels then old(secrets)[l].(enabled := enable) else old(secrets)[l]
    {
      if !enable {
        var total := CountEnabled();
        var toDisable := CountEnabledByLabels(labels);
        if toDisable >= total {
          return false;
        }
      }
      done := BulkToggleEnabled(labels, enable);
    }

    /** The store's own check counts a label as often as it is given. */
    method BulkToggleEnabled(labels: seq<string>, enable: bool) returns (done: bool)
      modifies this`secrets
      ensures done <==> enable || CountListed(old(secrets), labels) < |Enabled(old(secrets))|
      ensures secrets == if done then SetAll(old(secrets), labels, enable) else old(secrets)
      ensures secrets.Keys == old(secrets).Keys
      ensures forall l | l in secrets :: secrets[l] == if done && l in labels then old(secrets)[l].(enabled := enable) else old(secrets)[l]
    {
      if !enable {
        var current := CountEnabled();
        var toDisable, j := 0, 0;
        while j < |labels|
          invariant 0 <= j <= |labels| && toDisable == CountListed(secrets, labels[..j])
        {
          assert labels[..j + 1][..j] == labels[..j];
          if labels[j] in secrets && secrets[labels[j]].enabled {
            toDisable := toDisable + 1;
          }
          j := j + 1;
        }
        assert labels[..j] == labels;
        if toDisable >= current {
          return false;
        }
      }
      var i := 0;
      while i < |labels|
        invariant 0 <= i <= |labels| && secrets == SetAll(old(secrets), labels[..i], enable)
      {
        assert labels[..i + 1][..i] == labels[..i];
        if labels[i] in secrets {
          secrets := secrets[labels[i] := secrets[labels[i]].(enabled := enable)];
        }
        i := i + 1;
      }
      assert labels[..i] == labels;
      SetAllLeaves(old(secrets), labels, enable);
      done := true;
    }

    // ---------- sweeps ----------

    /** Disables one listed row unless it is the last enabled one. */
    method DisableUnlessLast(l: string)
      requires l in secrets
      modifies this`secrets
      ensures secrets == if |Enabled(old(secrets))| > 1 then SetEnabled(old(secrets), l, false) else old(secrets)
    {
      var count := CountEnabled();
      if count > 1 {
        secrets := secrets[l := secrets[l].(enabled := false)];
      }
    }

    /** Knows expiry dates only. */
    method CheckExpirations(order: seq<string>, now: int)
      requires Lists(order, secrets)
      modifies this`secrets
      ensures View() == Next(old(View()), Secrets.CheckExpirations(order, now))
      ensures var t := old(secrets);
        var due := set l | l in t && t[l].enabled && t[l].expiry.OnDate? && now > t[l].expiry.midnight;
        SwitchedOff(t, order, due, secrets)
    {
      ChecksSwitchOff(secrets, order, now);
      var listed := secrets;
      ghost var expired := DailyExpired(listed, now);
      var i := 0;
      while i < |order|
        invariant 0 <= i <= |order| && secrets == Sweep(listed, order[..i], expired)
      {
        var l := order[i];
        assert l in order;
        SweepOneMore(listed, order, i, expired);
        SweepKeepsKeys(listed, order[..i], expired);
        var expTime := DailyReading(listed[l].expiry);
        if listed[l].enabled && expTime.Some? && now > expTime.value {
          DisableUnlessLast(l);
        }
        i := i + 1;
      }
      assert order[..i] == order;
    }

    /** One row as it was listed: over its quota and not alerted, it is disabled unless it is
        the last, and marked in either case. */
    method CheckSecretQuota(l: string, sec: Secret, total: nat)
      requires l in secrets
      modifies this
      ensures View() == QuotaStep(old(View()), l, sec, total)
    {
      if !sec.enabled || sec.quotaBytes <= 0 {
        return;
      }
      if total <= 0 {
        return;
      }
      if Percent(total, sec.quotaBytes) >= 100 {
        if l in alerted {
          return;
        }
        DisableUnlessLast(l);
        alerted := alerted + {l};
      }
    }

    method CheckQuotas(order: seq<string>, usage: map<string, nat>)
      requires Lists(order, secrets)
      modifies this
      ensures View() == Next(old(View()), Secrets.CheckQuotas(order, usage))
      ensures var t := old(secrets);
        var due := set l | l in t && t[l].enabled && l in usage && t[l].quotaBytes > 0 && l !in old(alerted)
                           && Wrap64(usage[l] * 100) >= 100 * t[l].quotaBytes;
        SwitchedOff(t, order, due, secrets) && alerted == old(alerted) + due
    {
      var listed := secrets;
      ghost var hits := OverQuota(View(), usage);
      var i := 0;
      while i < |order|
        invariant 0 <= i <= |order| && View() == QuotasUpTo(old(View()), order[..i], hits)
      {
        var l := order[i];
        assert l in order;
        SweepKeepsKeys(listed, order[..i], hits);
        QuotaOneMore(old(View()), order, i, usage);
        CheckSecretQuota(l, listed[l], Usage(usage, l));
        i := i + 1;
      }
      assert order[..i] == order;
      AllHit(listed, order, hits);
      SweepSwitchesOff(listed, order, hits);
      OverQuotaIsDue(old(View()), usage);
    }

    method DisableExpired(order: seq<string>, now: int)
      requires Lists(order, secrets)
      modifies this`secrets
      ensures View() == Next(old(View()), DisableExpiredOp(order, now))
      ensures var t := old(secrets);
        var due := set l | l in t && t[l].enabled && ((t[l].expiry.OnDate? && now > t[l].expiry.midnight)
                                                      || (t[l].expiry.AtTime? && now > t[l].expiry.at));
        SwitchedOff(t, order, due, secrets)
    {
      BatchSwitchesOff(secrets, order, now);
      var labels := FindExpired(order, now);
      if labels == [] {
        return;
      }
      var count := CountEnabled();
      if |labels| >= count {
        labels := labels[..|labels| - 1];
      }
      DisableBatch(labels);
    }

    method DisableBatch(labels: seq<string>)
      modifies this`secrets
      ensures secrets == DisableAll(old(secrets), labels)
    {
      var i := 0;
      while i < |labels|
        invariant 0 <= i <= |labels| && secrets == DisableAll(old(secrets), labels[..i])
      {
        assert labels[..i + 1][..i] == labels[..i];
        if labels[i] in secrets && secrets[labels[i]].enabled {
          secrets := secrets[labels[i] := secrets[labels[i]].(enabled := false)];
        }
        i := i + 1;
      }
      assert labels[..i] == labels;
    }

    /** Knows dates and times of day. */
    method FindExpired(order: seq<string>, now: int) returns (labels: seq<string>)
      ensures labels == ExpiredLabels(secrets, order, BatchExpired(secrets, now))
    {
      ghost var expired := BatchExpired(secrets, now);
      labels := [];
      var i := 0;
      while i < |order|
        invariant 0 <= i <= |order| && labels == ExpiredLabels(secrets, order[..i], expired)
      {
        assert order[..i + 1][..i] == order[..i];
        if order[i] in secrets && secrets[order[i]].enabled {
          var expTime := BatchReading(secrets[order[i]].expiry);
          if expTime.Some? && now > expTime.value {
            labels := labels + [order[i]];
          }
        }
        i := i + 1;
      }
      assert order[..i] == order;
    }
  }

  lemma {:induction false} ChecksSwitchOff(t: Table, order: seq<string>, now: int)
    requires Lists(order, t)
    ensures var due := set l | l in t && t[l].enabled && t[l].expiry.OnDate? && now > t[l].expiry.midnight;
      SwitchedOff(t, order, due, Sweep(t, order, DailyExpired(t, now)))
  {
    var due := DailyExpired(t, now);
    assert due == set l | l in t && t[l].enabled && t[l].expiry.OnDate? && now > t[l].expiry.midnight;
    SweepSwitchesOff(t, order, due);
  }

  lemma BatchSwitchesOff(t: Table, order: seq<string>, now: int)
    requires Lists(order, t)
    ensures var due := set l | l in t && t[l].enabled && ((t[l].expiry.OnDate? && now > t[l].expiry.midnight)
                                                          || (t[l].expiry.AtTime? && now > t[l].expiry.at));
      SwitchedOff(t, order, due, Secrets.DisableExpired(t, order, BatchExpired(t, now)))
  {
    var due := BatchExpired(t, now);
    assert due == set l | l in t && t[l].enabled && ((t[l].expiry.OnDate? && now > t[l].expiry.midnight)
                                                     || (t[l].expiry.AtTime? && now > t[l].expiry.at));
    BatchIsSweep(t, order, due);
    SweepSwitchesOff(t, order, due);
  }

  lemma OverQuotaIsDue(s: State, usage: map<string, nat>)
    ensures OverQuota(s, usage) ==
            set l | l in s.secrets && s.secrets[l].enabled && l in usage && s.secrets[l].quotaBytes > 0 && l !in s.alerted
                    && Wrap64(usage[l] * 100) >= 100 * s.secrets[l].quotaBytes
  {
    forall l | l in s.secrets && s.secrets[l].enabled
      ensures l in OverQuota(s, usage) <==> l in usage && s.secrets[l].quotaBytes > 0 && l !in s.alerted
                                            && Wrap64(usage[l] * 100) >= 100 * s.secrets[l].quotaBytes
    {
      DueIsHit(s, usage, l);
    }
  }

  /** One row of the quota check. */
  function QuotaStep(s: State, l: string, sec: Secret, total: nat): State {
    if sec.enabled && Exceeds(sec, total) && l !in s.alerted then
      State(if |Enabled(s.secrets)| > 1 then SetEnabled(s.secrets, l, false) else s.secrets, s.alerted + {l})
    else s
  }

  function QuotasUpTo(s: State, order: seq<string>, hits: set<string>): State {
    State(Sweep(s.secrets, order, hits), s.alerted + Hit(s.secrets, order, hits))
  }

  lemma QuotaOneMore(s: State, order: seq<string>, i: nat, usage: map<string, nat>)
    requires Lists(order, s.secrets) && i < |order| && order[i] in s.secrets
    ensures var hits := OverQuota(s, usage);
      QuotaStep(QuotasUpTo(s, order[..i], hits), order[i], s.secrets[order[i]], Usage(usage, order[i]))
      == QuotasUpTo(s, order[..i + 1], hits)
  {
    SweepOneMore(s.secrets, order, i, OverQuota(s, usage));
  }

  lemma AllHit(t: Table, order: seq<string>, hits: set<string>)
    requires Lists(order, t) && forall l | l in hits :: l in t && t[l].enabled
    ensures Hit(t, order, hits) == hits
  {
  }
}
