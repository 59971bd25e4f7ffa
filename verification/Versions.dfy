/** Minecraft versions and biome identifiers used by the models (biomes.h). */
module Versions {
  const MC_1_6 := 9
  const MC_1_7 := 10
  const MC_1_13 := 16

  const OCEAN := 0
  const PLAINS := 1
  const DESERT := 2
  const MOUNTAINS := 3
  const FOREST := 4
  const TAIGA := 5
  const RIVER := 7
  const THE_END := 9
  const FROZEN_OCEAN := 10
  const FROZEN_RIVER := 11
  const SNOWY_TUNDRA := 12
  const SNOWY_MOUNTAINS := 13
  const MUSHROOM_FIELDS := 14
  const MUSHROOM_FIELD_SHORE := 15
  const DESERT_HILLS := 17
  const WOODED_HILLS := 18
  const TAIGA_HILLS := 19
  const JUNGLE := 21
  const JUNGLE_HILLS := 22
  const DEEP_OCEAN := 24
  const BIRCH_FOREST := 27
  const BIRCH_FOREST_HILLS := 28
  const DARK_FOREST := 29
  const SNOWY_TAIGA := 30
  const SNOWY_TAIGA_HILLS := 31
  const GIANT_TREE_TAIGA := 32
  const GIANT_TREE_TAIGA_HILLS := 33
  const WOODED_MOUNTAINS := 34
  const SAVANNA := 35
  const SAVANNA_PLATEAU := 36
  const BADLANDS := 37
  const WOODED_BADLANDS_PLATEAU := 38
  const SMALL_END_ISLANDS := 40
  const END_MIDLANDS := 41
  const END_HIGHLANDS := 42
  const END_BARRENS := 43
  const WARM_OCEAN := 44
  const LUKEWARM_OCEAN := 45
  const COLD_OCEAN := 46
  const DEEP_WARM_OCEAN := 47
  const DEEP_LUKEWARM_OCEAN := 48
  const DEEP_COLD_OCEAN := 49
  const DEEP_FROZEN_OCEAN := 50
  const BAMBOO_JUNGLE := 168
  const BAMBOO_JUNGLE_HILLS := 169
}
