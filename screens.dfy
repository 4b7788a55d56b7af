/** The screen alphabet of the navigator (internal/domain/state/fsm.go). A screen is its name. */
module Screens {
  type Screen = string

  const InitialState: Screen := "initial"
  const MainCity: Screen := "main_city"
  const ActivityTriumph: Screen := "activity_triumph"
  const Profile: Screen := "profile"
  const Leaderboard: Screen := "leaderboard"
  const Settings: Screen := "settings"
  const DawnMarket: Screen := "dawn_market"
  const Pets: Screen := "pets"
  const Exploration: Screen := "exploration"
  const ExplorationBattle: Screen := "exploration_battle"
  const ChiefProfile: Screen := "chief_profile"
  const ChiefCharacters: Screen := "chief_characters"
  const ChiefProfileSetting: Screen := "chief_profile_setting"
  const ChiefProfileAccount: Screen := "chief_profile_account"
  const ChiefProfileAccountChangeAccount: Screen := "chief_profile_account_change_account"
  const ChiefProfileAccountChangeGoogle: Screen := "chief_profile_account_change_account_google"
  const ChiefProfileAccountChangeGoogleConfirm: Screen := "chief_profile_account_change_account_google_continue"
  const AllianceWar: Screen := "alliance_war"
  const AllianceWarRally: Screen := "alliance_war_rally"
  const AllianceWarRallyAutoJoin: Screen := "alliance_war_rally_auto_join"
  const AllianceWarSolo: Screen := "alliance_war_solo"
  const AllianceWarEvents: Screen := "alliance_war_events"
  const World: Screen := "world"
  const WorldSearch: Screen := "world_search_resources"
  const WorldGlobalMap: Screen := "world_global_map"
  const Mail: Screen := "mail"
  const MailWars: Screen := "mail_wars"
  const MailAlliance: Screen := "mail_alliance"
  const MailSystem: Screen := "mail_system"
  const MailReports: Screen := "mail_reports"
  const MailStarred: Screen := "mail_starred"
  const VIP: Screen := "vip"
  const VIPAdd: Screen := "vip_add"
  const ChiefOrders: Screen := "chief_orders"
  const DailyMissions: Screen := "daily_missions"
  const GrowthMissions: Screen := "growth_missions"
  const AllianceManage: Screen := "alliance_manage"
  const AllianceTech: Screen := "alliance_tech"
  const AllianceSettings: Screen := "alliance_settings"
  const AllianceRanking: Screen := "alliance_ranking"
  const AllianceTerritory: Screen := "alliance_territory"
  const AllianceChests: Screen := "alliance_chests"
  const AllianceChestLoot: Screen := "alliance_chest_loot"
  const AllianceChestGift: Screen := "alliance_chest_gift"
  const AllianceActivityTriumph: Screen := "alliance_activity_triumph"
  const TundraAdventure: Screen := "tundra_adventure"
  const TundraAdventureMain: Screen := "tundra_adventure_main"
  const TundraAdventureDrill: Screen := "tundra_adventure_drill"
  const TundraAdventurerDrill: Screen := "tundra_adventurer_drill"
  const TundraAdventurerDailyMissions: Screen := "tundra_adventurer_daily_missions"
  const TundraAdventureOdessey: Screen := "tundra_adventure_odessey"
  const TundraAdventureCaravan: Screen := "tundra_adventure_caravan"
  const InfantryCityView: Screen := "infantry_city_view"
  const LancerCityView: Screen := "lancer_city_view"
  const MarksmanCityView: Screen := "marksman_city_view"
  const MainMenuCity: Screen := "main_menu_city"
  const MainMenuWilderness: Screen := "main_menu_wilderness"
  const MainMenuBuilding1: Screen := "main_menu_building_1"
  const MainMenuBuilding2: Screen := "main_menu_building_2"
  const MainMenuTechResearch: Screen := "main_menu_tech_research"
  const Backpack: Screen := "backpack"
  const BackpackResources: Screen := "backpack_resources"
  const BackpackSpeedups: Screen := "backpack_speedups"
  const BackpackBonus: Screen := "backpack_bonus"
  const BackpackGear: Screen := "backpack_gear"
  const BackpackOther: Screen := "backpack_other"
  const Chat: Screen := "chat"
  const ChatAlliance: Screen := "chat_alliance"
  const ChatWorld: Screen := "chat_world"
  const ChatPersonal: Screen := "chat_personal"
  const Heroes: Screen := "heroes"
  const Events: Screen := "events"
  const Deals: Screen := "deals"
  const TopUpCenter: Screen := "top_up_center"
  const Intel: Screen := "intel"
  const ArenaCityView: Screen := "arena_city_view"
  const ArenaMain: Screen := "arena_main"
  const ArenaDefensiveSquadLineup: Screen := "arena_defensive_squad_lineup"
  const ArenaChallengeList: Screen := "arena_challenge_list"
  const FishingCityView: Screen := "fishing_city_view"
  const FishingMain: Screen := "fishing_main"
  const HealInjured: Screen := "heal_injured"
  const Labyrinth: Screen := "labyrinth"
  const CaveOfMonsters: Screen := "cave_of_monsters"
  const Natalia: Screen := "heroes_natalia"
  const EnlistmentOffice: Screen := "enlistment_office"
}
