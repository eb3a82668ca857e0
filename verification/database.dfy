/**
 * The stored records the engine reads and writes: a cartridge (ROM, the
 * running state, the explicit save slot, the play time) and a user.
 */
module Database {
  import opened Common

  /**
   * A cartridge row. Its id, owner, console, title, ROM and assets do not change
   * while a session runs; the state, save slot and play time are written by
   * the engine.
   */
  class Cartridge {
    const id: int
    /** `user_id`: the owner. */
    const owner: UserId
    /** The console table the row lives in (`GameBoyCartridge` or `NESCartridge`). */
    const console: Console
    const title: string
    const rom: Bytes
    /** `GameBoyCartridge.border`: the border asset's file name. */
    const border: Option<string>
    /** `GameBoyCartridge.boot_animation`: the boot GIF's file name. */
    const bootAnimation: string
    var state: Option<Snapshot>
    var saveState: Option<Snapshot>
    var playTime: int

    constructor (id: int, owner: UserId, console: Console, title: string, rom: Bytes,
                 border: Option<string>, bootAnimation: string)
      ensures this.id == id && this.owner == owner && this.console == console
      ensures this.title == title && this.rom == rom
      ensures this.border == border && this.bootAnimation == bootAnimation
      ensures state == None && saveState == None && playTime == 0
    {
      this.id := id;
      this.owner := owner;
      this.console := console;
      this.title := title;
      this.rom := rom;
      this.border := border;
      this.bootAnimation := bootAnimation;
      state := None;
      saveState := None;
      playTime := 0;
    }
  }

  /** The Game Boy premium settings of a user (`GameBoyProfile`). */
  datatype Profile = Profile(enableColor: bool, enableBorder: bool, customBorder: Option<string>)

  /** A user row: id, premium flag and Game Boy profile (None when the user has none). */
  datatype User = User(id: UserId, premium: bool, profile: Option<Profile>)
}
