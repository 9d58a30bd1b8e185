/** How many generations the installer of the boot menu lists. */
module BootMenu {

  // The boot menu keeps the newest generations, and one entry for the system that installed it.
  const MENU_LIMIT := 10
}
