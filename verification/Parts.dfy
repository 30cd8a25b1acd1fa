/** The table of devices the programmer knows. */
module Parts {
  import opened DwTarget

  /** A row: signature, I/O, SRAM, EEPROM and flash sizes, DWDR, page size, boot section, EECR, EEARH. */
  function Characteristics(i: nat): Part
    requires i < 21
  {
    match i
    case 0 => Part(0x9007, 64, 64, 64, 1024, 0x2E, 32, 0x0000, 0x1C, 0x00)
    case 1 => Part(0x910A, 64, 128, 128, 2048, 0x1F, 32, 0x0000, 0x1C, 0x00)
    case 2 => Part(0x9108, 64, 128, 128, 2048, 0x22, 32, 0x0000, 0x1C, 0x1F)
    case 3 => Part(0x910B, 64, 128, 128, 2048, 0x27, 32, 0x0000, 0x1C, 0x1F)
    case 4 => Part(0x9205, 224, 512, 256, 4096, 0x31, 64, 0x0000, 0x1F, 0x22)
    case 5 => Part(0x9206, 64, 256, 256, 4096, 0x22, 64, 0x0000, 0x1C, 0x1F)
    case 6 => Part(0x9207, 64, 256, 256, 4096, 0x27, 64, 0x0000, 0x1C, 0x1F)
    case 7 => Part(0x920A, 224, 512, 256, 4096, 0x31, 64, 0x0000, 0x1F, 0x22)
    case 8 => Part(0x9215, 224, 256, 256, 4096, 0x27, 16, 0x0000, 0x1C, 0x1F)
    case 9 => Part(0x930A, 224, 1024, 512, 8192, 0x31, 64, 0x0F80, 0x1F, 0x22)
    case 10 => Part(0x930B, 64, 512, 512, 8192, 0x22, 64, 0x0000, 0x1C, 0x1F)
    case 11 => Part(0x930C, 64, 512, 512, 8192, 0x27, 64, 0x0000, 0x1C, 0x1F)
    case 12 => Part(0x930F, 224, 1024, 512, 8192, 0x31, 64, 0x0F80, 0x1F, 0x22)
    case 13 => Part(0x9315, 224, 512, 512, 8192, 0x27, 16, 0x0000, 0x1C, 0x1F)
    case 14 => Part(0x9389, 224, 512, 512, 8192, 0x31, 64, 0x0000, 0x1F, 0x22)
    case 15 => Part(0x9406, 224, 1024, 512, 16384, 0x31, 128, 0x1F80, 0x1F, 0x22)
    case 16 => Part(0x940B, 224, 1024, 512, 16384, 0x31, 128, 0x1F80, 0x1F, 0x22)
    case 17 => Part(0x9489, 224, 512, 512, 16384, 0x31, 128, 0x0000, 0x1F, 0x22)
    case 18 => Part(0x950F, 224, 2048, 1024, 32768, 0x31, 128, 0x3F00, 0x1F, 0x22)
    case 19 => Part(0x9514, 224, 2048, 1024, 32768, 0x31, 128, 0x3F00, 0x1F, 0x22)
    case _ => Part(0x958A, 224, 1024, 1024, 32768, 0x31, 128, 0x0000, 0x1F, 0x22)
  }

  /** Every row meets what the programmer assumes: among other things the run of 64 bytes from the boot section stays
      within the program addresses, and the address flag is clear of them. */
  lemma AllSupported(i: nat)
    requires i < 21
    ensures Supported(Characteristics(i))
  {
  }
}
