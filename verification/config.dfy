/** Server configuration defaults, used when the PORT and DEFAULT_DEVICE_NAME
    environment variables are not set. */
module Config {
  const Port: nat := 3000
  const DefaultDeviceName: string := "Küche"
}
