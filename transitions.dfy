/**
 * The transition table of the navigator as data (internal/fsm/fsm.go:64-574):
 * from each screen, the screens it leads to and the steps that get there.
 * Waits are in milliseconds. Commented-out entries of the source are not
 * entries. The three tables merged into it at start-up are defined in files
 * that are not part of this model.
 */
module Transitions {
  import opened Wrappers
  import opened Screens
  import opened Fsm

  const TransitionPaths: Table := map[
    MainCity := map[
      Exploration := [Step("to_exploration", None, 300, "")],
      AllianceManage := [Step("to_alliance_manage", None, 300, "")],
      ChiefProfile := [Step("to_chief_profile", None, 300, "")],
      MainMenuCity := [Step("to_main_menu_city", None, 300, "")],
      Pets := [Step("to_pets", None, 300, "")],
      World := [Step("to_world", None, 300, "")],
      Mail := [Step("to_mail", None, 300, "")],
      TundraAdventure := [Step("events.tundraAdventure.state.isExist", None, 300, "events.tundraAdventure.state.isExist")],
      VIP := [Step("to_vip", None, 300, "")],
      ChiefOrders := [Step("to_chief_orders", None, 300, "")],
      DailyMissions := [Step("to_daily_missions", None, 300, "")]
    ],
    MainMenuWilderness := map[
      MainMenuCity := [Step("to_main_menu_city", None, 300, "")]
    ],
    ChiefProfile := map[
      ChiefProfileSetting := [Step("to_chief_profile_setting", None, 300, "")],
      MainCity := [Step("chief_profile_back", None, 300, "")]
    ],
    ChiefProfileSetting := map[
      ChiefProfileAccount := [Step("to_chief_profile_account", None, 300, "")],
      ChiefCharacters := [Step("to_chief_characters", None, 300, "")]
    ],
    ChiefProfileAccount := map[
      ChiefProfileAccountChangeAccount := [Step("to_change_account", None, 300, "")]
    ],
    ChiefProfileAccountChangeAccount := map[
      ChiefProfileAccountChangeGoogle := [Step("to_google_account", None, 300, "")]
    ],
    ChiefProfileAccountChangeGoogle := map[
      ChiefProfileAccountChangeGoogleConfirm := [Step("to_google_continue", None, 300, "")]
    ],
    ChiefProfileAccountChangeGoogleConfirm := map[
    ],
    ChiefCharacters := map[
    ],
    AllianceManage := map[
      AllianceTech := [Step("to_alliance_tech", None, 300, "")],
      AllianceRanking := [Step("to_alliance_power_rankings", None, 300, "")],
      AllianceSettings := [Step("to_alliance_settings", None, 300, "")],
      MainCity := [Step("to_alliance_back", None, 300, "")],
      AllianceWar := [Step("to_alliance_war", None, 300, "")],
      AllianceChests := [Step("to_alliance_chests", None, 300, "")]
    ],
    AllianceTerritory := map[
      AllianceManage := [Step("page_back", None, 300, "")]
    ],
    AllianceChests := map[
      AllianceChestLoot := [Step("to_alliance_chest_loot", None, 300, "")],
      AllianceChestGift := [Step("to_alliance_chest_gift", None, 300, "")],
      AllianceManage := [Step("to_alliance_manager_from_alliance_chest", None, 300, "")]
    ],
    AllianceChestLoot := map[
      AllianceManage := [Step("to_alliance_manager_from_alliance_chest", None, 300, "")],
      AllianceChestGift := [Step("to_alliance_chest_gift", None, 100, "")]
    ],
    AllianceChestGift := map[
      AllianceManage := [Step("to_alliance_manager_from_alliance_chest", None, 300, "")],
      AllianceChestLoot := [Step("to_alliance_chest_loot", None, 100, "")]
    ],
    AllianceTech := map[
      AllianceManage := [Step("from_tech_to_alliance", None, 300, "")]
    ],
    Exploration := map[
      ExplorationBattle := [Step("to_exploration_battle", None, 300, "")],
      MainCity := [Step("exploration_back", None, 300, "")]
    ],
    ExplorationBattle := map[
      Exploration := [Step("to_exploration_battle_back", None, 300, "")]
    ],
    TopUpCenter := map[
      MainCity := [Step("page_back", None, 300, "")]
    ],
    AllianceWar := map[
      AllianceWarRally := [Step("to_alliance_war_rally", None, 300, "")],
      AllianceWarSolo := [Step("to_alliance_war_solo", None, 300, "")],
      AllianceWarEvents := [Step("to_alliance_war_events", None, 300, "")],
      AllianceManage := [Step("from_war_to_alliance_manage", None, 300, "")]
    ],
    AllianceWarRally := map[
      AllianceWarRallyAutoJoin := [Step("to_alliance_war_auto_join", None, 300, "")],
      AllianceWar := [],
      AllianceWarSolo := [Step("to_alliance_war_solo", None, 300, "")],
      AllianceWarEvents := [Step("to_alliance_war_events", None, 300, "")],
      AllianceManage := [Step("from_war_to_alliance_manage", None, 300, "")]
    ],
    AllianceWarRallyAutoJoin := map[
      AllianceWar := [Step("alliance_war_auto_join_close", None, 300, "")]
    ],
    World := map[
      MainCity := [Step("to_main_city", None, 300, "")],
      WorldSearch := [Step("to_search_resources", None, 300, "")],
      WorldGlobalMap := [Step("to_global_map", None, 300, "")],
      Mail := [Step("to_mail", None, 300, "")],
      HealInjured := [Step("healInjured.state.isAvailable", None, 300, "healInjured.state.isAvailable")]
    ],
    Mail := map[
      MainCity := [Step("mail_close", None, 300, "")],
      MailWars := [Step("to_mail_wars", None, 300, "")],
      MailAlliance := [Step("to_mail_alliance", None, 300, "")],
      MailSystem := [Step("to_mail_system", None, 300, "")],
      MailReports := [Step("to_mail_reports", None, 300, "")],
      MailStarred := [Step("to_mail_starred", None, 300, "")]
    ],
    MailWars := map[
      Mail := [],
      MainCity := [Step("mail_close", None, 300, "")],
      MailWars := [Step("to_mail_wars", None, 300, "")],
      MailAlliance := [Step("to_mail_alliance", None, 300, "")],
      MailSystem := [Step("to_mail_system", None, 300, "")],
      MailReports := [Step("to_mail_reports", None, 300, "")],
      MailStarred := [Step("to_mail_starred", None, 300, "")]
    ],
    MailAlliance := map[
      Mail := [],
      MainCity := [Step("mail_close", None, 300, "")],
      MailWars := [Step("to_mail_wars", None, 300, "")],
      MailAlliance := [Step("to_mail_alliance", None, 300, "")],
      MailSystem := [Step("to_mail_system", None, 300, "")],
      MailReports := [Step("to_mail_reports", None, 300, "")],
      MailStarred := [Step("to_mail_starred", None, 300, "")]
    ],
    MailSystem := map[
      Mail := [],
      MainCity := [Step("mail_close", None, 300, "")],
      MailWars := [Step("to_mail_wars", None, 300, "")],
      MailAlliance := [Step("to_mail_alliance", None, 300, "")],
      MailSystem := [Step("to_mail_system", None, 300, "")],
      MailReports := [Step("to_mail_reports", None, 300, "")],
      MailStarred := [Step("to_mail_starred", None, 300, "")]
    ],
    MailReports := map[
      Mail := [],
      MainCity := [Step("mail_close", None, 300, "")],
      MailWars := [Step("to_mail_wars", None, 300, "")],
      MailAlliance := [Step("to_mail_alliance", None, 300, "")],
      MailSystem := [Step("to_mail_system", None, 300, "")],
      MailReports := [Step("to_mail_reports", None, 300, "")],
      MailStarred := [Step("to_mail_starred", None, 300, "")]
    ],
    MailStarred := map[
      Mail := [],
      MainCity := [Step("mail_close", None, 300, "")],
      MailWars := [Step("to_mail_wars", None, 300, "")],
      MailAlliance := [Step("to_mail_alliance", None, 300, "")],
      MailSystem := [Step("to_mail_system", None, 300, "")],
      MailReports := [Step("to_mail_reports", None, 300, "")],
      MailStarred := [Step("to_mail_starred", None, 300, "")]
    ],
    VIP := map[
      MainCity := [Step("from_vip_to_main_city", None, 300, "")],
      VIPAdd := [Step("to_vip_add", None, 300, "")]
    ],
    VIPAdd := map[
      VIP := [Step("from_vip_add_to_vip", None, 300, "")]
    ],
    ChiefOrders := map[
      MainCity := [Step("from_chief_orders_to_main_city", None, 300, "")]
    ],
    DailyMissions := map[
      MainCity := [Step("from_daily_missions_to_main_city", None, 300, "")],
      GrowthMissions := [Step("to_growth_missions", None, 300, "")]
    ],
    GrowthMissions := map[
      MainCity := [Step("from_growth_missions_to_main_city", None, 300, "")],
      DailyMissions := [Step("from_growth_missions_to_daily_missions", None, 300, "")]
    ],
    Backpack := map[
      MainCity := [Step("page_back", None, 300, "")]
    ],
    BackpackResources := map[
      Backpack := [],
      MainCity := [Step("page_back", None, 300, "")]
    ],
    BackpackSpeedups := map[
      Backpack := [],
      MainCity := [Step("page_back", None, 300, "")]
    ],
    BackpackBonus := map[
      Backpack := [],
      MainCity := [Step("page_back", None, 300, "")]
    ],
    BackpackGear := map[
      Backpack := [],
      MainCity := [Step("page_back", None, 300, "")]
    ],
    BackpackOther := map[
      Backpack := [],
      MainCity := [Step("page_back", None, 300, "")]
    ],
    Chat := map[
      MainCity := [Step("page_back", None, 300, "")]
    ],
    ChatAlliance := map[
      Chat := [],
      MainCity := [Step("page_back", None, 300, "")]
    ],
    ChatWorld := map[
      Chat := [],
      MainCity := [Step("page_back", None, 300, "")]
    ],
    ChatPersonal := map[
      Chat := [],
      MainCity := [Step("page_back", None, 300, "")]
    ],
    Heroes := map[
      MainCity := [Step("page_back", None, 300, "")]
    ],
    Natalia := map[
      Heroes := [Step("page_back", None, 300, "")]
    ],
    Events := map[
      MainCity := [Step("page_back", None, 300, "")]
    ],
    Deals := map[
      MainCity := [Step("page_back", None, 300, "")]
    ],
    Intel := map[
      MainCity := [Step("page_back", None, 300, "")]
    ],
    ArenaCityView := map[
      MainCity := [],
      MainMenuCity := [Step("to_main_menu_city", None, 300, "")],
      ArenaMain := [Step("to_arena_main", None, 2000, "")]
    ],
    ArenaMain := map[
      MainCity := [Step("page_back", None, 300, "")],
      ArenaDefensiveSquadLineup := [Step("to_arena_defensive_squad_lineup", None, 300, "")],
      ArenaChallengeList := [Step("to_arena_challenge_list", None, 300, "")]
    ],
    ArenaDefensiveSquadLineup := map[
      MainCity := [Step("page_back", None, 300, "")]
    ],
    HealInjured := map[
      World := [Step("from_heal_injured_to_world", None, 300, "")],
      MainCity := [Step("to_main_city", None, 300, "")]
    ],
    ActivityTriumph := map[
      AllianceManage := [Step("page_back", None, 300, "")]
    ],
    Labyrinth := map[
      MainCity := [Step("page_back", None, 300, "")]
    ],
    CaveOfMonsters := map[
      Labyrinth := [Step("page_back", None, 300, "")]
    ],
    EnlistmentOffice := map[
      MainCity := [Step("page_back", None, 300, "")]
    ]
  ]
}
