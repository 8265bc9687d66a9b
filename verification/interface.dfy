/**
 * The one piece of ui/interface.py that connects the two core classes:
 * update_cooldown writes a new cooldown to the settings and to the live
 * CrackLogic object. Widgets, popups and polling are not modelled.
 */
module Interface {
  import opened CoreLogic
  import opened CoreSettings
  import opened Wrappers

  /** A session built from fresh default settings gets the same cooldown as CrackLogic's own default. */
  lemma DefaultCooldownsAgree()
    ensures DEFAULTS["cooldown"] == IntValue(DEFAULT_COOLDOWN)
    ensures DEFAULT_COOLDOWN == 300
  {
  }

  /** update_cooldown(value): the settings and the running session agree on the new cooldown at once. */
  method UpdateCooldown(settings: Settings, logic: CrackLogic, value: int)
    modifies settings`settings, settings.file, logic`cooldown
    ensures settings.settings == old(settings.settings)["cooldown" := IntValue(value)]
    ensures settings.GetCooldown() == IntValue(logic.cooldown)
    ensures settings.file.contents == Some(settings.settings)
    ensures logic.State() == old(logic.State()).(cooldown := value)
    ensures logic.State() == Apply(old(logic.State()), SetCooldown(value))
  {
    settings.SetCooldown(value);
    logic.cooldown := value;
  }
}
